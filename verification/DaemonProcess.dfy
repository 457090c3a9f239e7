/** Daemon settings and the daemonizing sequence (daemon.cpp). System calls that may fail take
    their outcome from the environment. */
module DaemonProcess {
  import opened Text
  import opened OsKernel

  /** A copy of the DaemonInfo fields that anything reads. */
  datatype Info = Info(daemonized: bool, noChdir: bool, noFork: bool, noCloseStdio: bool,
                       pidFile: string, logFile: string, logLevel: string,
                       logFileSizeMb: int, logFileCount: int, logAsync: bool)

  const DEFAULT_INFO := Info(false, false, false, true, "", "", "", 0, 0, false)

  class DaemonInfo {
    var daemonized: bool
    var noChdir: bool
    var noFork: bool
    var noCloseStdio: bool
    var pidFile: string
    var logFile: string
    var logLevel: string
    var logFileSizeMb: int
    var logFileCount: int
    var logAsync: bool
    var strErr: string

    function Value(): Info
      reads this
    {
      Info(daemonized, noChdir, noFork, noCloseStdio, pidFile, logFile, logLevel, logFileSizeMb, logFileCount, logAsync)
    }

    constructor ()
      ensures !daemonized && !noChdir && !noFork && noCloseStdio && !logAsync
      ensures pidFile == logFile == logLevel == strErr == "" && logFileSizeMb == logFileCount == 0
    {
      daemonized, noChdir, noFork, noCloseStdio := false, false, false, true;
      pidFile, logFile, logLevel, strErr := "", "", "", "";
      logFileSizeMb, logFileCount, logAsync := 0, 0, false;
    }

    method SetPidFile(v: string) returns (ok: bool)
      modifies this
      ensures ok == (v != "") && Value() == (if ok then old(Value()).(pidFile := v) else old(Value()))
      ensures strErr == if ok then old(strErr) else "pidFile is empty"
    {
      if v == "" {
        strErr := "pidFile is empty";
        return false;
      }
      pidFile := v;
      return true;
    }

    method SetLogFile(v: string) returns (ok: bool)
      modifies this
      ensures ok == (v != "") && Value() == (if ok then old(Value()).(logFile := v) else old(Value()))
      ensures strErr == if ok then old(strErr) else "pidFile is empty"
    {
      if v == "" {
        strErr := "pidFile is empty";
        return false;
      }
      logFile := v;
      return true;
    }

    method SetLogLevel(v: string) returns (ok: bool)
      modifies this
      ensures ok == (v != "") && Value() == (if ok then old(Value()).(logLevel := v) else old(Value()))
      ensures strErr == if ok then old(strErr) else "logLevel is empty"
    {
      if v == "" {
        strErr := "logLevel is empty";
        return false;
      }
      logLevel := v;
      return true;
    }

    method SetLogRotation(sizeMb: int, count: int, async: bool)
      modifies this
      ensures Value() == old(Value()).(logFileSizeMb := sizeMb, logFileCount := count, logAsync := async)
      ensures strErr == old(strErr)
    {
      logFileSizeMb := sizeMb;
      logFileCount := count;
      logAsync := async;
    }
  }

  // ---------------------------------------------------------------- the daemonizing plan

  datatype Step = Fork | Umask | Setsid | Chdir | PidFile | Init | Redirect

  datatype Attempt = Attempt(step: Step, ok: bool)

  /** What the environment decides: the value fork() returns (-1, 0 in the child, a process id
      in the parent) and whether the other calls succeed. */
  datatype Env = Env(forkResult: int, setsidOk: bool, chdirOk: bool, openOk: bool)

  const STAGES := [Fork, Umask, Setsid, Chdir, PidFile, Init, Redirect]

  function Stage(s: Step): (n: nat)
    ensures n < |STAGES| && STAGES[n] == s
  {
    match s
    case Fork => 0
    case Umask => 1
    case Setsid => 2
    case Chdir => 3
    case PidFile => 4
    case Init => 5
    case Redirect => 6
  }

  /** Which steps the settings ask for. The PID file step is taken only when the name is
      empty, which is when it cannot succeed. */
  predicate Wanted(i: Info, hasInit: bool, s: Step) {
    match s
    case Fork => !i.noFork
    case Umask => true
    case Setsid => !i.noFork
    case Chdir => !i.noChdir
    case PidFile => i.pidFile == ""
    case Init => hasInit
    case Redirect => !i.noCloseStdio
  }

  /** The wanted ones among the stages ss, in order. */
  function Filter(i: Info, hasInit: bool, ss: seq<Step>): seq<Step> {
    if ss == [] then []
    else if Wanted(i, hasInit, ss[0]) then [ss[0]] + Filter(i, hasInit, ss[1..])
    else Filter(i, hasInit, ss[1..])
  }

  function Plan(i: Info, hasInit: bool): seq<Step> {
    Filter(i, hasInit, STAGES)
  }

  predicate Succeeds(s: Step, env: Env) {
    match s
    case Fork => env.forkResult == 0
    case Umask => true
    case Setsid => env.setsidOk
    case Chdir => env.chdirOk
    case PidFile => false
    case Init => true
    case Redirect => env.openOk
  }

  /** Attempting a plan step by step, stopping after the first failure. */
  function Execute(plan: seq<Step>, env: Env): seq<Attempt> {
    if plan == [] then []
    else if !Succeeds(plan[0], env) then [Attempt(plan[0], false)]
    else [Attempt(plan[0], true)] + Execute(plan[1..], env)
  }

  predicate AllOk(t: seq<Attempt>) {
    forall i | 0 <= i < |t| :: t[i].ok
  }

  const EXIT_SUCCESS := 0
  const EXIT_FAILURE := 1

  /** How the process ends when a step fails: the parent of a successful fork leaves with
      success, every error with failure. */
  function ExitCode(s: Step, env: Env): int {
    if s == Fork && env.forkResult != -1 then EXIT_SUCCESS else EXIT_FAILURE
  }

  /** The attempts so far, and the exit code if the last one failed. */
  datatype Progress = Progress(trace: seq<Attempt>, exit: Option<int>)

  const START := Progress([], None)

  /** One stage: skipped after an exit or when it is not wanted. */
  function Try(i: Info, hasInit: bool, env: Env, s: Step, p: Progress): Progress {
    if p.exit.Some? || !Wanted(i, hasInit, s) then p
    else if Succeeds(s, env) then Progress(p.trace + [Attempt(s, true)], None)
    else Progress(p.trace + [Attempt(s, false)], Some(ExitCode(s, env)))
  }

  function TryBackground(i: Info, env: Env): Progress {
    Try(i, false, env, Setsid, Try(i, false, env, Umask, Try(i, false, env, Fork, START)))
  }

  /** All stages, in the order daemonize2 takes them. */
  function TryAll(i: Info, hasInit: bool, env: Env): Progress {
    var p4 := Try(i, hasInit, env, Chdir, TryBackground(i, env));
    var p5 := Try(i, hasInit, env, PidFile, p4);
    var p6 := Try(i, hasInit, env, Init, p5);
    Try(i, hasInit, env, Redirect, p6)
  }

  class Daemon {
    var config: Info
    var strErr: string

    constructor ()
      ensures config == DEFAULT_INFO && strErr == ""
    {
      config, strErr := DEFAULT_INFO, "";
    }

    method SaveConfig(c: DaemonInfo) returns (ok: bool)
      modifies this
      ensures ok <==> c.pidFile != "" && c.logLevel != ""
      ensures config == if ok then c.Value() else old(config)
      ensures strErr == if ok then old(strErr) else "daemon configuration has unset parameters"
    {
      if c.pidFile == "" || c.logLevel == "" {
        strErr := "daemon configuration has unset parameters";
        return false;
      }
      config := c.Value();
      return true;
    }

    /** After success the three standard descriptors are /dev/null and every other descriptor
        is as before, whichever descriptor the open returned. */
    method RedirectStdioToDevnull(k: Kernel, openOk: bool) returns (ret: int)
      modifies k`fds
      ensures ret == if openOk then 0 else -1
      ensures !openOk ==> k.fds == old(k.fds)
      ensures openOk ==> 0 in k.fds && 1 in k.fds && 2 in k.fds
      ensures openOk ==> k.fds[0] == k.fds[1] == k.fds[2] == DevNull
      ensures openOk ==> k.fds - {0, 1, 2} == old(k.fds) - {0, 1, 2}
    {
      var fd := k.Allocate(DevNull, openOk);
      if fd == -1 {
        return -1;
      }
      k.Dup2(fd, 0);
      k.Dup2(fd, 1);
      k.Dup2(fd, 2);
      if fd > 2 {
        k.Close(fd);
      }
      return 0;
    }

    /** lockOk and truncOk decide lockf() and ftruncate(); written is what write() returns.
        Either the open locked descriptor of a file holding the PID is returned, or no
        descriptor is left behind. */
    method CreatePidFile(k: Kernel, name: string, pid: nat, openOk: bool, lockOk: bool, truncOk: bool, written: int)
      returns (fd: int)
      requires -1 <= written <= |Dec(pid)| + 1
      modifies k
      ensures fd != -1 <==> name != "" && openOk && lockOk && truncOk && written == |Dec(pid)| + 1
      ensures fd == -1 ==> k.fds == old(k.fds)
      ensures fd != -1 ==> fd == LowestFree(old(k.fds)) && k.fds == old(k.fds)[fd := File(name)]
      ensures fd != -1 ==> k.files == old(k.files)[name := Dec(pid) + "\n"]
      ensures k.files - {name} == old(k.files) - {name}
      ensures name == "" ==> k.files == old(k.files)
      ensures !(openOk && lockOk && truncOk) && name in old(k.files) ==> k.files == old(k.files)
    {
      if name == "" {
        return -1;
      }
      fd := k.OpenCreate(name, openOk);
      if fd == -1 {
        return -1;
      }
      if !lockOk {
        k.Close(fd);
        return -1;
      }
      if !truncOk {
        k.Close(fd);
        return -1;
      }
      var text := Dec(pid) + "\n";
      k.files := k.files[name := if written >= 0 then text[..written] else ""];
      if written != |text| {
        k.Close(fd);
        return -1;
      }
      assert text[..written] == text;
    }

    /** do_fork: only the child returns without an exit code. */
    method DoFork(env: Env) returns (exit: Option<int>)
      ensures exit == if Succeeds(Fork, env) then None else Some(ExitCode(Fork, env))
    {
      match env.forkResult {
        case -1 => return Some(EXIT_FAILURE);
        case 0 => return None;
        case _ => return Some(EXIT_SUCCESS);
      }
    }

    /** daemonize2; the trace records the attempted steps. An exit ends the process, so nothing
        after it is attempted. */
    method Daemonize2(k: Kernel, env: Env, hasInit: bool) returns (trace: seq<Attempt>, exit: Option<int>)
      modifies this, k
      ensures Progress(trace, exit) == TryAll(old(config), hasInit, env)
      ensures config == old(config).(daemonized := old(config).daemonized || exit == None)
      ensures k.files == old(k.files)
      ensures exit == None && !config.noCloseStdio ==>
                0 in k.fds && 1 in k.fds && 2 in k.fds && k.fds[0] == k.fds[1] == k.fds[2] == DevNull
      ensures exit != None || config.noCloseStdio ==> k.fds == old(k.fds)
    {
      trace, exit := EnterBackground(env);
      if exit.Some? {
        return;
      }
      if !config.noChdir {
        trace := trace + [Attempt(Chdir, env.chdirOk)];
        if !env.chdirOk {
          return trace, Some(EXIT_FAILURE);
        }
      }
      if config.pidFile == "" {
        // With an empty name the call fails before any of its system calls is made.
        var fd := CreatePidFile(k, config.pidFile, 0, true, true, true, 0);
        trace := trace + [Attempt(PidFile, fd != -1)];
        if fd == -1 {
          return trace, Some(EXIT_FAILURE);
        }
      }
      if hasInit {
        trace := trace + [Attempt(Init, true)];
      }
      if !config.noCloseStdio {
        var ret := RedirectStdioToDevnull(k, env.openOk);
        trace := trace + [Attempt(Redirect, ret == 0)];
        if ret != 0 {
          return trace, Some(EXIT_FAILURE);
        }
      }
      config := config.(daemonized := true);
      return trace, None;
    }

    /** The first part of daemonize2: do_fork, umask, setsid. */
    method EnterBackground(env: Env) returns (trace: seq<Attempt>, exit: Option<int>)
      ensures Progress(trace, exit) == TryBackground(config, env)
    {
      trace := [];
      if !config.noFork {
        exit := DoFork(env);
        trace := trace + [Attempt(Fork, exit == None)];
        if exit.Some? {
          return;
        }
      }
      trace := trace + [Attempt(Umask, true)];
      if !config.noFork {
        trace := trace + [Attempt(Setsid, env.setsidOk)];
        if !env.setsidOk {
          return trace, Some(EXIT_FAILURE);
        }
      }
      return trace, None;
    }
  }

  // ---------------------------------------------------------------- every run

  /** Trying the stages ss one after the other. */
  function TryFrom(i: Info, hasInit: bool, env: Env, ss: seq<Step>, p: Progress): Progress
    decreases |ss|
  {
    if ss == [] then p else TryFrom(i, hasInit, env, ss[1..], Try(i, hasInit, env, ss[0], p))
  }

  lemma {:induction false} TryFromExecutes(i: Info, hasInit: bool, env: Env, ss: seq<Step>, p: Progress)
    ensures var r := TryFrom(i, hasInit, env, ss, p);
            if p.exit.Some? then r == p else r.trace == p.trace + Execute(Filter(i, hasInit, ss), env)
    decreases |ss|
  {
    if ss != [] {
      TryFromExecutes(i, hasInit, env, ss[1..], Try(i, hasInit, env, ss[0], p));
    }
  }

  lemma {:induction false} TryFromExits(i: Info, hasInit: bool, env: Env, ss: seq<Step>, p: Progress)
    ensures TryFrom(i, hasInit, env, ss, p).exit == None <==>
            p.exit == None && forall s | s in Filter(i, hasInit, ss) :: Succeeds(s, env)
    decreases |ss|
  {
    if ss != [] {
      TryFromExits(i, hasInit, env, ss[1..], Try(i, hasInit, env, ss[0], p));
      assert Wanted(i, hasInit, ss[0]) ==>
          forall s :: s in Filter(i, hasInit, ss) <==> s == ss[0] || s in Filter(i, hasInit, ss[1..]);
    }
  }

  lemma TryAllIsTryFrom(i: Info, hasInit: bool, env: Env)
    ensures TryAll(i, hasInit, env) == TryFrom(i, hasInit, env, STAGES, START)
  {
    var p3 := TryBackground(i, env);
    TryThree(i, hasInit, env, Fork, Umask, Setsid, [Chdir, PidFile, Init, Redirect], START);
    TryThree(i, hasInit, env, Chdir, PidFile, Init, [Redirect], p3);
    assert [Redirect][1..] == [];
    assert STAGES == [Fork, Umask, Setsid] + [Chdir, PidFile, Init, Redirect];
    assert [Chdir, PidFile, Init, Redirect] == [Chdir, PidFile, Init] + [Redirect];
  }

  lemma TryThree(i: Info, hasInit: bool, env: Env, a: Step, b: Step, c: Step, ss: seq<Step>, p: Progress)
    ensures TryFrom(i, hasInit, env, [a, b, c] + ss, p) ==
            TryFrom(i, hasInit, env, ss,
              Try(i, hasInit, env, c, Try(i, hasInit, env, b, Try(i, hasInit, env, a, p))))
  {
    var all := [a, b, c] + ss;
    assert all[1..] == [b, c] + ss;
    assert all[1..][1..] == [c] + ss;
    assert all[1..][1..][1..] == ss;
    var q := Try(i, hasInit, env, a, p);
    assert TryFrom(i, hasInit, env, all, p) == TryFrom(i, hasInit, env, all[1..], q);
    var r := Try(i, hasInit, env, b, q);
    assert TryFrom(i, hasInit, env, all[1..], q) == TryFrom(i, hasInit, env, all[1..][1..], r);
  }

  /** A run of daemonize2 is the execution of its plan, and the process goes on exactly when
      every step of the plan succeeds. */
  lemma RunExecutesPlan(i: Info, hasInit: bool, env: Env)
    ensures var r := TryAll(i, hasInit, env);
            && r.trace == Execute(Plan(i, hasInit), env)
            && (r.exit == None <==> forall s | s in Plan(i, hasInit) :: Succeeds(s, env))
  {
    TryAllIsTryFrom(i, hasInit, env);
    TryFromExecutes(i, hasInit, env, STAGES, START);
    TryFromExits(i, hasInit, env, STAGES, START);
  }

  /** A trace follows its plan: only the last attempt may have failed, and it fails exactly
      when some step of the plan fails. */
  lemma {:induction false} ExecuteShape(plan: seq<Step>, env: Env)
    ensures var t := Execute(plan, env);
            && |t| <= |plan|
            && (forall i | 0 <= i < |t| :: t[i] == Attempt(plan[i], Succeeds(plan[i], env)))
            && (forall i | 0 <= i < |t| - 1 :: t[i].ok)
            && (AllOk(t) <==> forall s | s in plan :: Succeeds(s, env))
            && (AllOk(t) ==> |t| == |plan|)
  {
    if plan != [] {
      ExecuteShape(plan[1..], env);
      var t := Execute(plan, env);
      if Succeeds(plan[0], env) {
        assert t[0].ok;
        assert t[1..] == Execute(plan[1..], env);
        assert AllOk(t) <==> AllOk(t[1..]);
        assert forall s :: s in plan <==> s == plan[0] || s in plan[1..];
      } else {
        assert !t[0].ok && plan[0] in plan;
      }
    }
  }

  lemma {:induction false} FilterHas(i: Info, hasInit: bool, ss: seq<Step>, s: Step)
    ensures s in Filter(i, hasInit, ss) <==> Wanted(i, hasInit, s) && s in ss
  {
    if ss != [] {
      FilterHas(i, hasInit, ss[1..], s);
    }
  }

  ghost predicate InStageOrder(ss: seq<Step>) {
    forall j, k | 0 <= j < k < |ss| :: Stage(ss[j]) < Stage(ss[k])
  }

  lemma {:induction false} FilterKeepsOrder(i: Info, hasInit: bool, ss: seq<Step>)
    requires InStageOrder(ss)
    ensures InStageOrder(Filter(i, hasInit, ss))
  {
    if ss != [] {
      FilterKeepsOrder(i, hasInit, ss[1..]);
      var q := Filter(i, hasInit, ss[1..]);
      forall k | 0 <= k < |q| ensures Stage(q[k]) > Stage(ss[0]) {
        FilterHas(i, hasInit, ss[1..], q[k]);
      }
    }
  }

  lemma StagesComplete(s: Step)
    ensures s in STAGES
  {
    assert STAGES[Stage(s)] == s;
  }

  lemma StagesInOrder()
    ensures InStageOrder(STAGES)
  {
  }

  /** A plan holds exactly the wanted steps, in stage order. */
  lemma PlanInOrder(i: Info, hasInit: bool)
    ensures forall s :: s in Plan(i, hasInit) <==> Wanted(i, hasInit, s)
    ensures InStageOrder(Plan(i, hasInit))
  {
    StagesInOrder();
    FilterKeepsOrder(i, hasInit, STAGES);
    forall s ensures s in Plan(i, hasInit) <==> Wanted(i, hasInit, s) {
      FilterHas(i, hasInit, STAGES, s);
      StagesComplete(s);
    }
  }

  lemma EveryWantedSucceeds(i: Info, hasInit: bool, env: Env)
    ensures (forall s | Wanted(i, hasInit, s) :: Succeeds(s, env)) <==>
              && i.pidFile != ""
              && (i.noFork || (env.forkResult == 0 && env.setsidOk))
              && (i.noChdir || env.chdirOk)
              && (i.noCloseStdio || env.openOk)
  {
    assert Wanted(i, hasInit, Fork) == Wanted(i, hasInit, Setsid) == !i.noFork;
    assert Wanted(i, hasInit, Chdir) == !i.noChdir;
    assert Wanted(i, hasInit, PidFile) == (i.pidFile == "");
    assert Wanted(i, hasInit, Redirect) == !i.noCloseStdio;
  }

  /** The process counts as daemonized exactly when the PID file name is set and every wanted
      call succeeds; the trace is then the whole plan. */
  lemma DaemonizedIff(i: Info, hasInit: bool, env: Env)
    ensures var r := TryAll(i, hasInit, env);
            && (r.exit == None <==>
                 && i.pidFile != ""
                 && (i.noFork || (env.forkResult == 0 && env.setsidOk))
                 && (i.noChdir || env.chdirOk)
                 && (i.noCloseStdio || env.openOk))
            && (r.exit == None ==>
                 AllOk(r.trace) && forall s | Wanted(i, hasInit, s) :: Attempt(s, true) in r.trace)
  {
    var p := Plan(i, hasInit);
    var r := TryAll(i, hasInit, env);
    RunExecutesPlan(i, hasInit, env);
    ExecuteShape(p, env);
    PlanInOrder(i, hasInit);
    EveryWantedSucceeds(i, hasInit, env);
    if r.exit == None {
      forall s | Wanted(i, hasInit, s) ensures Attempt(s, true) in r.trace {
        assert s in p;
        var k :| 0 <= k < |p| && p[k] == s;
        assert r.trace[k] == Attempt(s, true);
      }
    }
  }

  /** No step is attempted twice, and an attempted step comes after every earlier-staged one
      and only once that one has succeeded. */
  lemma AttemptsInOrder(i: Info, hasInit: bool, env: Env, j: nat, k: nat)
    requires var t := TryAll(i, hasInit, env).trace; j < |t| && k < |t|
    ensures var t := TryAll(i, hasInit, env).trace;
            && (t[j].step == t[k].step ==> j == k)
            && (Stage(t[j].step) < Stage(t[k].step) ==> j < k && t[j].ok)
  {
    var p := Plan(i, hasInit);
    RunExecutesPlan(i, hasInit, env);
    ExecuteShape(p, env);
    StagesInOrder();
    FilterKeepsOrder(i, hasInit, STAGES);
    assert j < k ==> Stage(p[j]) < Stage(p[k]);
    assert k < j ==> Stage(p[k]) < Stage(p[j]);
  }

  lemma EarlierInPlan(plan: seq<Step>, env: Env, k: nat, s: Step) returns (j: nat)
    requires InStageOrder(plan) && k < |Execute(plan, env)| <= |plan| && s in plan && Stage(s) < Stage(plan[k])
    ensures j < k && Execute(plan, env)[j] == Attempt(s, true)
  {
    ExecuteShape(plan, env);
    j :| 0 <= j < |plan| && plan[j] == s;
    assert Stage(plan[j]) < Stage(plan[k]);
  }

  /** A step is attempted only after every earlier-staged step that is wanted has been
      attempted with success. */
  lemma EarlierStepsDone(i: Info, hasInit: bool, env: Env, k: nat, s: Step) returns (j: nat)
    requires var t := TryAll(i, hasInit, env).trace; k < |t| && Stage(s) < Stage(t[k].step)
    requires Wanted(i, hasInit, s)
    ensures j < k && TryAll(i, hasInit, env).trace[j] == Attempt(s, true)
  {
    RunExecutesPlan(i, hasInit, env);
    ExecuteShape(Plan(i, hasInit), env);
    PlanInOrder(i, hasInit);
    j := EarlierInPlan(Plan(i, hasInit), env, k, s);
  }

  lemma AttemptedIsWanted(i: Info, hasInit: bool, env: Env, k: nat)
    requires var t := TryAll(i, hasInit, env).trace; k < |t|
    ensures var t := TryAll(i, hasInit, env).trace;
            Wanted(i, hasInit, t[k].step) && t[k].ok == Succeeds(t[k].step, env)
  {
    RunExecutesPlan(i, hasInit, env);
    ExecuteShape(Plan(i, hasInit), env);
    PlanInOrder(i, hasInit);
    assert Plan(i, hasInit)[k] in Plan(i, hasInit);
  }

  /** setsid is attempted only in a forked child. */
  lemma SetsidOnlyInChild(i: Info, hasInit: bool, env: Env, k: nat) returns (j: nat)
    requires var t := TryAll(i, hasInit, env).trace; k < |t| && t[k].step == Setsid
    ensures env.forkResult == 0 && j < k && TryAll(i, hasInit, env).trace[j] == Attempt(Fork, true)
  {
    AttemptedIsWanted(i, hasInit, env, k);
    j := EarlierStepsDone(i, hasInit, env, k, Fork);
    AttemptedIsWanted(i, hasInit, env, j);
  }

  /** A process whose fork() did not return 0 attempts nothing more: the parent leaves with
      success, a failed fork with failure. */
  lemma ParentStopsAtFork(i: Info, hasInit: bool, env: Env)
    requires !i.noFork && env.forkResult != 0
    ensures TryAll(i, hasInit, env) ==
            Progress([Attempt(Fork, false)], Some(if env.forkResult == -1 then EXIT_FAILURE else EXIT_SUCCESS))
  {
    RunExecutesPlan(i, hasInit, env);
  }

  /** The exit code is 0 exactly in the parent of a successful fork, and 1 after any error. */
  lemma ExitCodes(i: Info, hasInit: bool, env: Env)
    ensures var exit := TryAll(i, hasInit, env).exit;
            && (exit == Some(0) <==> !i.noFork && env.forkResult != 0 && env.forkResult != -1)
            && (exit == None || exit == Some(0) || exit == Some(1))
  {
    var p3 := TryBackground(i, env);
    assert p3.exit == Some(0) <==> !i.noFork && env.forkResult != 0 && env.forkResult != -1;
  }

  /** The init callback runs at most once, and only if there is one. */
  lemma InitOnce(i: Info, hasInit: bool, env: Env, j: nat, k: nat)
    requires var t := TryAll(i, hasInit, env).trace; j < |t| && k < |t| && t[j].step == t[k].step == Init
    ensures hasInit && j == k
  {
    AttemptsInOrder(i, hasInit, env, j, k);
    AttemptedIsWanted(i, hasInit, env, j);
  }

  /** The standard streams are redirected only after the init callback has run. */
  lemma InitBeforeRedirect(i: Info, env: Env, k: nat) returns (j: nat)
    requires var t := TryAll(i, true, env).trace; k < |t| && t[k].step == Redirect
    ensures j < k && TryAll(i, true, env).trace[j] == Attempt(Init, true)
  {
    j := EarlierStepsDone(i, true, env, k, Init);
  }

  /** The whole sequence, when every step is wanted, the PID file is named and every call
      succeeds. */
  lemma FullRun(i: Info, env: Env)
    requires !i.noFork && !i.noChdir && !i.noCloseStdio && i.pidFile != ""
    requires env.forkResult == 0 && env.setsidOk && env.chdirOk && env.openOk
    ensures TryAll(i, true, env) ==
            Progress([Attempt(Fork, true), Attempt(Umask, true), Attempt(Setsid, true), Attempt(Chdir, true),
                      Attempt(Init, true), Attempt(Redirect, true)], None)
  {
    var p3 := TryBackground(i, env);
    assert p3.trace == [Attempt(Fork, true), Attempt(Umask, true), Attempt(Setsid, true)];
  }

  /** With the default settings every call may succeed, and the process still ends in failure:
      the PID file has no name. */
  lemma DefaultSettingsExample()
    ensures TryAll(DEFAULT_INFO, false, Env(0, true, true, true)) ==
            Progress([Attempt(Fork, true), Attempt(Umask, true), Attempt(Setsid, true), Attempt(Chdir, true),
                      Attempt(PidFile, false)], Some(EXIT_FAILURE))
  {
  }
}
