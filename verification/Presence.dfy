/**
 The life of TCP connections in internal/server/user.go and Handler of internal/server/server.go.

 Each connection has a reader, which runs login and rename commands, and an idle timer; either of them
 runs Offline, once.  RenameUser moves the key in OnlineMap under the lock, but the connection's own name
 is written only afterwards, and a login runs Online after that.  Every critical section is one step, and
 the steps of any number of connections interleave freely.
 */
module Presence {
  import opened Registry

  /** Where the reader stands. */
  datatype Point =
    | Fresh                       // accepted, not yet registered
    | Ready                       // between commands
    | LoginMoved(target: string)  // login: key moved, name not yet written
    | LoginNamed                  // login: name written, Online still to run
    | RenameMoved(target: string) // rename: key moved, name not yet written

  /** How far Offline has come: not begun, removed from the map, channel closed. */
  datatype Phase = Active | Leaving | Closed

  datatype Conn = Conn(name: string, auth: bool, at: Point, phase: Phase)

  datatype State = State(conns: map<nat, Conn>, online: map<string, nat>)

  datatype Step =
    | Accept(u: nat, addr: string)
    | FirstOnline(u: nat)
    | LoginMove(u: nat, target: string)
    | LoginName(u: nat)
    | LoginOnline(u: nat)
    | RenameMove(u: nat, target: string)
    | RenameName(u: nat)
    | Remove(u: nat)
    | Close(u: nat)

  predicate Enabled(st: State, step: Step) {
    if step.Accept? then step.u !in st.conns
    else
      && step.u in st.conns
      && var c := st.conns[step.u];
         match step
         case FirstOnline(_) => c.at.Fresh?
         case LoginMove(_, _) => c.at.Ready? && !c.auth
         case LoginName(_) => c.at.LoginMoved?
         case LoginOnline(_) => c.at.LoginNamed?
         case RenameMove(_, _) => c.at.Ready? && c.auth
         case RenameName(_) => c.at.RenameMoved?
         case Remove(_) => c.phase.Active? && !c.at.Fresh?
         case Close(_) => c.phase.Leaving?
         case Accept(_, _) => false
  }

  function Set(st: State, u: nat, c: Conn): State {
    st.(conns := st.conns[u := c])
  }

  function Apply(st: State, step: Step): State
    requires Enabled(st, step)
  {
    match step
    case Accept(u, addr) => Set(st, u, Conn(addr, false, Fresh, Active))
    case FirstOnline(u) =>
      var c := st.conns[u];
      Set(st, u, c.(at := Ready)).(online := OnlineAt(st.online, c.name, u))
    case LoginMove(u, target) =>
      var c := st.conns[u];
      if c.name == target then Set(st, u, c.(at := LoginNamed))
      else if CanRename(st.online, c.name, target) then
        Set(st, u, c.(at := LoginMoved(target))).(online := Renamed(st.online, c.name, target))
      else st
    case LoginName(u) =>
      var c := st.conns[u];
      Set(st, u, c.(name := c.at.target, at := LoginNamed))
    case LoginOnline(u) =>
      var c := st.conns[u];
      Set(st, u, c.(auth := true, at := Ready)).(online := OnlineAt(st.online, c.name, u))
    case RenameMove(u, target) =>
      var c := st.conns[u];
      if CanRename(st.online, c.name, target) then
        Set(st, u, c.(at := RenameMoved(target))).(online := Renamed(st.online, c.name, target))
      else st
    case RenameName(u) =>
      var c := st.conns[u];
      Set(st, u, c.(name := c.at.target, at := Ready))
    case Remove(u) =>
      Set(st, u, st.conns[u].(phase := Leaving)).(online := OfflineOf(st.online, u))
    case Close(u) => Set(st, u, st.conns[u].(phase := Closed))
  }

  const INIT := State(map[], map[])

  predicate IsRun(steps: seq<Step>)
    decreases |steps|, 0
  {
    steps == [] || (IsRun(steps[..|steps| - 1]) && Enabled(After(steps[..|steps| - 1]), steps[|steps| - 1]))
  }

  function After(steps: seq<Step>): State
    requires IsRun(steps)
    decreases |steps|, 1
  {
    if steps == [] then INIT else Apply(After(steps[..|steps| - 1]), steps[|steps| - 1])
  }

  // ----- Sending without recover

  /** fanoutTCP sends to every registered channel and cannot survive a closed one. */
  ghost predicate FanOutSafe(st: State) {
    forall k :: k in st.online && st.online[k] in st.conns ==> !st.conns[st.online[k]].phase.Closed?
  }

  /** Nobody is registered whose Offline has begun. */
  ghost predicate NoGhosts(st: State) {
    && (forall k :: k in st.online ==> st.online[k] in st.conns && st.conns[st.online[k]].phase.Active?)
    && (forall u :: u in st.conns && st.conns[u].at.Fresh? ==> st.conns[u].phase.Active?)
  }

  /** A login registers a connection that the idle timer has already taken offline. */
  predicate Resurrects(st: State, step: Step)
    requires Enabled(st, step)
  {
    step.LoginOnline? && !st.conns[step.u].phase.Active?
  }

  /** One step makes a ghost exactly when it is such a login. */
  lemma GhostIffResurrects(st: State, step: Step)
    requires NoGhosts(st) && Enabled(st, step)
    ensures NoGhosts(Apply(st, step)) <==> !Resurrects(st, step)
  {
    var st' := Apply(st, step);
    if Resurrects(st, step) {
      assert st'.online[st.conns[step.u].name] == step.u;
    }
  }

  /** Some step of the run is a login that comes too late. */
  ghost predicate ResurrectsSometime(steps: seq<Step>)
    requires IsRun(steps)
    decreases |steps|
  {
    steps != [] &&
    (|| ResurrectsSometime(steps[..|steps| - 1])
     || Resurrects(After(steps[..|steps| - 1]), steps[|steps| - 1]))
  }

  ghost predicate NoGhostsThroughout(steps: seq<Step>)
    requires IsRun(steps)
    decreases |steps|
  {
    NoGhosts(After(steps)) && (steps == [] || NoGhostsThroughout(steps[..|steps| - 1]))
  }

  /** A run is free of ghosts exactly when no login of it resurrects a connection. */
  lemma {:induction false} GhostFreeIff(steps: seq<Step>)
    requires IsRun(steps)
    ensures NoGhostsThroughout(steps) <==> !ResurrectsSometime(steps)
  {
    if steps != [] {
      var past := steps[..|steps| - 1];
      GhostFreeIff(past);
      if NoGhostsThroughout(past) {
        GhostIffResurrects(After(past), steps[|steps| - 1]);
      }
    }
  }

  /** Such a run never sends on a closed channel. */
  lemma {:induction false} ChannelsAreOpen(steps: seq<Step>)
    requires IsRun(steps) && !ResurrectsSometime(steps)
    ensures FanOutSafe(After(steps))
  {
    GhostFreeIff(steps);
  }

  /** And a ghost is fatal: letting its own Offline finish makes the next fan-out fail. */
  lemma GhostIsFatal(st: State, k: string)
    requires k in st.online && st.online[k] in st.conns && !st.conns[st.online[k]].phase.Active?
    ensures var u := st.online[k];
            || !FanOutSafe(st)
            || (Enabled(st, Close(u)) && !FanOutSafe(Apply(st, Close(u))))
  {
    var u := st.online[k];
    if st.conns[u].phase.Leaving? {
      var st' := Apply(st, Close(u));
      assert k in st'.online && st'.conns[st'.online[k]].phase.Closed?;
    }
  }

  // ----- The exact condition for a safe fan-out

  /** What every run keeps: the map leads to connections, and Offline starts only after the first Online. */
  ghost predicate Grounded(st: State) {
    && (forall k :: k in st.online ==> st.online[k] in st.conns)
    && (forall u :: u in st.conns && st.conns[u].at.Fresh? ==> st.conns[u].phase.Active?)
  }

  lemma StepKeepsGrounded(st: State, step: Step)
    requires Grounded(st) && Enabled(st, step)
    ensures Grounded(Apply(st, step))
  {
  }

  lemma {:induction false} RunsAreGrounded(steps: seq<Step>)
    requires IsRun(steps)
    ensures Grounded(After(steps))
  {
    if steps != [] {
      RunsAreGrounded(steps[..|steps| - 1]);
      StepKeepsGrounded(After(steps[..|steps| - 1]), steps[|steps| - 1]);
    }
  }

  /** A fan-out is safe now and stays so whichever Offline finishes next. */
  ghost predicate Robust(st: State) {
    FanOutSafe(st) && forall u: nat :: Enabled(st, Close(u)) ==> FanOutSafe(Apply(st, Close(u)))
  }

  lemma RobustIffNoGhosts(st: State)
    requires Grounded(st)
    ensures Robust(st) <==> NoGhosts(st)
  {
    if Robust(st) {
      forall k | k in st.online
        ensures st.conns[st.online[k]].phase.Active?
      {
        if !st.conns[st.online[k]].phase.Active? {
          GhostIsFatal(st, k);
        }
      }
    }
  }

  ghost predicate RobustThroughout(steps: seq<Step>)
    requires IsRun(steps)
    decreases |steps|
  {
    Robust(After(steps)) && (steps == [] || RobustThroughout(steps[..|steps| - 1]))
  }

  lemma {:induction false} RobustThroughoutIffNoGhosts(steps: seq<Step>)
    requires IsRun(steps)
    ensures RobustThroughout(steps) <==> NoGhostsThroughout(steps)
  {
    RunsAreGrounded(steps);
    RobustIffNoGhosts(After(steps));
    if steps != [] {
      RobustThroughoutIffNoGhosts(steps[..|steps| - 1]);
    }
  }

  /**
   In every state of a run a fan-out is safe, now and after the next close, exactly when no login of the
   run registers a connection whose Offline has begun.
   */
  lemma {:induction false} RobustIff(steps: seq<Step>)
    requires IsRun(steps)
    ensures RobustThroughout(steps) <==> !ResurrectsSometime(steps)
  {
    RobustThroughoutIffNoGhosts(steps);
    GhostFreeIff(steps);
  }

  /** A step puts a closed channel into the map, or closes one that is in it. */
  ghost predicate Breaks(st: State, step: Step)
    requires Enabled(st, step)
  {
    || (step.LoginOnline? && st.conns[step.u].phase.Closed?)
    || (step.Close? && exists k :: k in st.online && st.online[k] == step.u)
  }

  lemma SafeIffNotBroken(st: State, step: Step)
    requires Grounded(st) && FanOutSafe(st) && Enabled(st, step)
    ensures FanOutSafe(Apply(st, step)) <==> !Breaks(st, step)
  {
    var st' := Apply(st, step);
    if step.LoginOnline? {
      assert st'.online[st.conns[step.u].name] == step.u;
    }
  }

  ghost predicate BreaksSometime(steps: seq<Step>)
    requires IsRun(steps)
    decreases |steps|
  {
    steps != [] &&
    (|| BreaksSometime(steps[..|steps| - 1])
     || Breaks(After(steps[..|steps| - 1]), steps[|steps| - 1]))
  }

  ghost predicate SafeThroughout(steps: seq<Step>)
    requires IsRun(steps)
    decreases |steps|
  {
    FanOutSafe(After(steps)) && (steps == [] || SafeThroughout(steps[..|steps| - 1]))
  }

  /** A fan-out in any state of the run itself is safe exactly when no step of the run breaks it. */
  lemma {:induction false} SafeIff(steps: seq<Step>)
    requires IsRun(steps)
    ensures SafeThroughout(steps) <==> !BreaksSometime(steps)
  {
    if steps != [] {
      var past := steps[..|steps| - 1];
      SafeIff(past);
      RunsAreGrounded(past);
      if SafeThroughout(past) {
        SafeIffNotBroken(After(past), steps[|steps| - 1]);
      }
    }
  }

  function Closes(steps: seq<Step>, u: nat): nat {
    if steps == [] then 0
    else Closes(steps[..|steps| - 1], u) + if steps[|steps| - 1] == Close(u) then 1 else 0
  }

  /** In every run, whatever the interleaving, a channel is closed at most once. */
  lemma {:induction false} ClosedAtMostOnce(steps: seq<Step>, u: nat)
    requires IsRun(steps)
    ensures Closes(steps, u) == if u in After(steps).conns && After(steps).conns[u].phase.Closed? then 1 else 0
  {
    if steps != [] {
      ClosedAtMostOnce(steps[..|steps| - 1], u);
    }
  }

  // ----- The registry invariant

  predicate Live(c: Conn) {
    c.phase.Active? && !c.at.Fresh?
  }

  /** The key of a connection: its name, or the target of a rename whose name is not yet written. */
  function Key(c: Conn): string {
    match c.at
    case LoginMoved(target) => target
    case RenameMoved(target) => target
    case _ => c.name
  }

  /** OnlineMap holds exactly the live connections, each under its one key. */
  ghost predicate Exact(st: State) {
    && (forall k :: k in st.online ==>
          st.online[k] in st.conns && Live(st.conns[st.online[k]]) && Key(st.conns[st.online[k]]) == k)
    && (forall u :: u in st.conns && Live(st.conns[u]) ==>
          Key(st.conns[u]) in st.online && st.online[Key(st.conns[u])] == u)
    && (forall u :: u in st.conns && st.conns[u].at.Fresh? ==> st.conns[u].phase.Active?)
  }

  /**
   What a step needs: a new connection's address is not in use as a name, and a reader whose connection
   has been taken offline neither logs in nor moves somebody else's key.
   */
  predicate Clean(st: State, step: Step)
    requires Enabled(st, step)
  {
    match step
    case FirstOnline(u) => st.conns[u].name !in st.online
    case LoginMove(u, target) =>
      var c := st.conns[u];
      c.phase.Active? || c.name == target || !CanRename(st.online, c.name, target)
    case LoginOnline(u) => st.conns[u].phase.Active?
    case RenameMove(u, target) =>
      st.conns[u].phase.Active? || !CanRename(st.online, st.conns[u].name, target)
    case _ => true
  }

  lemma OnlineStepExact(st: State, step: Step)
    requires Exact(st) && Enabled(st, step) && (step.FirstOnline? || step.LoginOnline?)
    ensures Exact(Apply(st, step)) <==> Clean(st, step)
  {
    var u := step.u;
    var c := st.conns[u];
    var st' := Apply(st, step);
    assert st'.online[c.name] == u;
    if step.FirstOnline? && c.name in st.online {
      var v := st.online[c.name];
      assert v != u && st'.conns[v] == st.conns[v];
    }
  }

  lemma MoveStepExact(st: State, step: Step)
    requires Exact(st) && Enabled(st, step) && (step.LoginMove? || step.RenameMove?)
    ensures Exact(Apply(st, step)) <==> Clean(st, step)
  {
    var c := st.conns[step.u];
    var st' := Apply(st, step);
    if CanRename(st.online, c.name, step.target) {
      var v := st.online[c.name];
      assert st'.online[step.target] == v;
      if c.phase.Active? {
        assert v == step.u;
      } else {
        assert v != step.u && st'.conns[v] == st.conns[v];
      }
    }
  }

  lemma OtherStepExact(st: State, step: Step)
    requires Exact(st) && Enabled(st, step)
    requires step.Accept? || step.LoginName? || step.RenameName? || step.Remove? || step.Close?
    ensures Exact(Apply(st, step))
  {
  }

  /** The invariant survives a step exactly when the step is clean. */
  lemma ExactIffClean(st: State, step: Step)
    requires Exact(st) && Enabled(st, step)
    ensures Exact(Apply(st, step)) <==> Clean(st, step)
  {
    if step.FirstOnline? || step.LoginOnline? {
      OnlineStepExact(st, step);
    } else if step.LoginMove? || step.RenameMove? {
      MoveStepExact(st, step);
    } else {
      OtherStepExact(st, step);
    }
  }

  ghost predicate CleanThroughout(steps: seq<Step>)
    requires IsRun(steps)
    decreases |steps|
  {
    steps == [] ||
    (CleanThroughout(steps[..|steps| - 1]) && Clean(After(steps[..|steps| - 1]), steps[|steps| - 1]))
  }

  ghost predicate ExactThroughout(steps: seq<Step>)
    requires IsRun(steps)
    decreases |steps|
  {
    Exact(After(steps)) && (steps == [] || ExactThroughout(steps[..|steps| - 1]))
  }

  /** The registry is right in every state of a run exactly when every step of the run is clean. */
  lemma {:induction false} RegistryExactIff(steps: seq<Step>)
    requires IsRun(steps)
    ensures ExactThroughout(steps) <==> CleanThroughout(steps)
  {
    if steps != [] {
      var past := steps[..|steps| - 1];
      RegistryExactIff(past);
      if ExactThroughout(past) {
        ExactIffClean(After(past), steps[|steps| - 1]);
      }
    }
  }

  /** In a clean run no registered channel is closed. */
  lemma {:induction false} CleanRunsAreSafe(steps: seq<Step>)
    requires IsRun(steps) && CleanThroughout(steps)
    ensures FanOutSafe(After(steps))
  {
    RegistryExactIff(steps);
  }

  /** With a right registry, a live connection gets a new name iff nobody has it; otherwise nothing happens. */
  lemma NewNameIff(st: State, step: Step)
    requires Exact(st) && Enabled(st, step) && (step.LoginMove? || step.RenameMove?)
    requires Live(st.conns[step.u]) && step.target != st.conns[step.u].name
    ensures var st', name := Apply(st, step), st.conns[step.u].name;
            if step.target in st.online then st' == st
            else
              && st'.online.Keys == st.online.Keys - {name} + {step.target} && st'.online[step.target] == step.u
              && (forall k :: k in st.online && k != name ==> st'.online[k] == st.online[k])
              && Key(st'.conns[step.u]) == step.target
  {
  }

  ghost predicate LoggedInBefore(steps: seq<Step>, u: nat) {
    exists i :: 0 <= i < |steps| && steps[i] == LoginOnline(u)
  }

  /** In every run a connection counts as authenticated iff it has completed a login. */
  lemma {:induction false} AuthenticatedIff(steps: seq<Step>, u: nat)
    requires IsRun(steps)
    ensures u in After(steps).conns && After(steps).conns[u].auth <==> LoggedInBefore(steps, u)
  {
    if steps != [] {
      var past := steps[..|steps| - 1];
      AuthenticatedIff(past, u);
      if LoggedInBefore(past, u) {
        var i :| 0 <= i < |past| && past[i] == LoginOnline(u);
        assert steps[i] == LoginOnline(u);
      }
    }
  }

  /** So nobody renames itself before a login, and nobody logs in twice. */
  lemma {:induction false} LoginComesFirst(steps: seq<Step>, step: Step)
    requires IsRun(steps) && Enabled(After(steps), step)
    ensures step.RenameMove? ==> LoggedInBefore(steps, step.u)
    ensures step.LoginMove? ==> !LoggedInBefore(steps, step.u)
  {
    if step.RenameMove? || step.LoginMove? {
      AuthenticatedIff(steps, step.u);
    }
  }

  // ----- One key each, clean or not

  lemma StepKeepsInjective(st: State, step: Step)
    requires Injective(st.online) && Enabled(st, step)
    ensures Injective(Apply(st, step).online)
  {
  }

  /** In every run, ghosts, lost connections and moved keys included, a connection has at most one key. */
  lemma {:induction false} RegistryIsInjective(steps: seq<Step>)
    requires IsRun(steps)
    ensures Injective(After(steps).online)
  {
    if steps != [] {
      RegistryIsInjective(steps[..|steps| - 1]);
      StepKeepsInjective(After(steps[..|steps| - 1]), steps[|steps| - 1]);
    }
  }

  // ----- What goes wrong otherwise

  lemma Extend(steps: seq<Step>, step: Step)
    requires IsRun(steps) && Enabled(After(steps), step)
    ensures IsRun(steps + [step]) && After(steps + [step]) == Apply(After(steps), step)
  {
    assert (steps + [step])[..|steps|] == steps;
  }

  /** A connection that has connected and is in the middle of a login. */
  function Connected(u: nat, addr: string): seq<Step> {
    [Accept(u, addr)] + [FirstOnline(u)]
  }

  function HalfLogin(u: nat, addr: string, name: string): seq<Step> {
    Connected(u, addr) + [LoginMove(u, name)] + [LoginName(u)]
  }

  lemma ConnectedState(u: nat, addr: string)
    ensures IsRun(Connected(u, addr))
    ensures After(Connected(u, addr)) == State(map[u := Conn(addr, false, Ready, Active)], map[addr := u])
  {
    Extend([], Accept(u, addr));
    assert [] + [Accept(u, addr)] == [Accept(u, addr)];
    assert After([Accept(u, addr)]) == State(map[u := Conn(addr, false, Fresh, Active)], map[]);
    Extend([Accept(u, addr)], FirstOnline(u));
  }

  lemma HalfLoginState(u: nat, addr: string, name: string)
    requires addr != name
    ensures IsRun(HalfLogin(u, addr, name))
    ensures After(HalfLogin(u, addr, name))
         == State(map[u := Conn(name, false, LoginNamed, Active)], map[name := u])
  {
    var r := Connected(u, addr);
    ConnectedState(u, addr);
    Extend(r, LoginMove(u, name));
    assert After(r + [LoginMove(u, name)])
        == State(map[u := Conn(addr, false, LoginMoved(name), Active)], map[name := u]);
    Extend(r + [LoginMove(u, name)], LoginName(u));
  }

  /** Whenever the idle timer fires between a login's rename and its Online, the next fan-out fails. */
  lemma {:induction false} KickDuringLoginBreaksFanOut(steps: seq<Step>, u: nat)
    requires IsRun(steps) && u in After(steps).conns
    requires After(steps).conns[u].at.LoginNamed? && After(steps).conns[u].phase.Active?
    ensures var run := steps + [Remove(u)] + [Close(u)] + [LoginOnline(u)];
            IsRun(run) && !FanOutSafe(After(run))
  {
    var name := After(steps).conns[u].name;
    Extend(steps, Remove(u));
    Extend(steps + [Remove(u)], Close(u));
    Extend(steps + [Remove(u)] + [Close(u)], LoginOnline(u));
    var last := After(steps + [Remove(u)] + [Close(u)] + [LoginOnline(u)]);
    assert name in last.online && last.conns[last.online[name]].phase.Closed?;
  }

  /** And such a run exists for any user of the server. */
  lemma FanOutCanFail(u: nat, addr: string, name: string)
    requires addr != name
    ensures var run := HalfLogin(u, addr, name) + [Remove(u)] + [Close(u)] + [LoginOnline(u)];
            IsRun(run) && !FanOutSafe(After(run))
  {
    HalfLoginState(u, addr, name);
    KickDuringLoginBreaksFanOut(HalfLogin(u, addr, name), u);
  }

  /** Registering an address that somebody has taken as a name pushes that connection out of the map. */
  lemma TakenAddressEvicts(st: State, u: nat)
    requires Exact(st) && Enabled(st, FirstOnline(u)) && st.conns[u].name in st.online
    ensures var v := st.online[st.conns[u].name];
            && Live(Apply(st, FirstOnline(u)).conns[v])
            && forall k :: k in Apply(st, FirstOnline(u)).online ==> Apply(st, FirstOnline(u)).online[k] != v
  {
    var v := st.online[st.conns[u].name];
    assert v != u;
  }

  /** A connection that has logged in. */
  function LoggedIn(u: nat, addr: string, name: string): seq<Step> {
    HalfLogin(u, addr, name) + [LoginOnline(u)]
  }

  lemma LoggedInState(u: nat, addr: string, name: string)
    requires addr != name
    ensures IsRun(LoggedIn(u, addr, name))
    ensures After(LoggedIn(u, addr, name)) == State(map[u := Conn(name, true, Ready, Active)], map[name := u])
  {
    HalfLoginState(u, addr, name);
    Extend(HalfLogin(u, addr, name), LoginOnline(u));
  }

  /** u takes the address that v is going to connect from as its name. */
  function Squat(u: nat, addr: string, name: string, v: nat, addr': string): seq<Step> {
    LoggedIn(u, addr, name) + [RenameMove(u, addr')] + [RenameName(u)] + [Accept(v, addr')]
  }

  lemma SquatState(u: nat, addr: string, name: string, v: nat, addr': string)
    requires addr != name && addr' != name && u != v
    ensures IsRun(Squat(u, addr, name, v, addr'))
    ensures After(Squat(u, addr, name, v, addr')) ==
            State(map[u := Conn(addr', true, Ready, Active), v := Conn(addr', false, Fresh, Active)], map[addr' := u])
  {
    var r := LoggedIn(u, addr, name);
    LoggedInState(u, addr, name);
    Extend(r, RenameMove(u, addr'));
    assert After(r + [RenameMove(u, addr')])
        == State(map[u := Conn(name, true, RenameMoved(addr'), Active)], map[addr' := u]);
    Extend(r + [RenameMove(u, addr')], RenameName(u));
    assert After(r + [RenameMove(u, addr')] + [RenameName(u)])
        == State(map[u := Conn(addr', true, Ready, Active)], map[addr' := u]);
    Extend(r + [RenameMove(u, addr')] + [RenameName(u)], Accept(v, addr'));
  }

  /** Rename accepts any text, so a run in which a live connection is pushed out of the map exists. */
  lemma LiveConnectionCanBeLost(u: nat, addr: string, name: string, v: nat, addr': string)
    requires addr != name && addr' != name && u != v
    ensures var run := Squat(u, addr, name, v, addr') + [FirstOnline(v)];
            && IsRun(run) && u in After(run).conns && Live(After(run).conns[u])
            && forall k :: k in After(run).online ==> After(run).online[k] != u
  {
    SquatState(u, addr, name, v, addr');
    Extend(Squat(u, addr, name, v, addr'), FirstOnline(v));
  }

  /** u is taken offline; its reader still has a command to run. */
  function Kicked(u: nat, addr: string, name: string): seq<Step> {
    LoggedIn(u, addr, name) + [Remove(u)]
  }

  /** Meanwhile v connects and takes u's name. */
  function Arrived(u: nat, addr: string, name: string, v: nat, addr': string): seq<Step> {
    Kicked(u, addr, name) + [Accept(v, addr')] + [FirstOnline(v)]
  }

  function Replaced(u: nat, addr: string, name: string, v: nat, addr': string): seq<Step> {
    Arrived(u, addr, name, v, addr') + [LoginMove(v, name)] + [LoginName(v)] + [LoginOnline(v)]
  }

  lemma KickedState(u: nat, addr: string, name: string)
    requires addr != name
    ensures IsRun(Kicked(u, addr, name))
    ensures After(Kicked(u, addr, name)) == State(map[u := Conn(name, true, Ready, Leaving)], map[])
  {
    LoggedInState(u, addr, name);
    Extend(LoggedIn(u, addr, name), Remove(u));
  }

  lemma ArrivedState(u: nat, addr: string, name: string, v: nat, addr': string)
    requires addr != name && addr' != name && u != v
    ensures IsRun(Arrived(u, addr, name, v, addr'))
    ensures After(Arrived(u, addr, name, v, addr')) ==
            State(map[u := Conn(name, true, Ready, Leaving), v := Conn(addr', false, Ready, Active)], map[addr' := v])
  {
    var gone := Conn(name, true, Ready, Leaving);
    var r := Kicked(u, addr, name);
    KickedState(u, addr, name);
    Extend(r, Accept(v, addr'));
    assert After(r + [Accept(v, addr')]) == State(map[u := gone, v := Conn(addr', false, Fresh, Active)], map[]);
    Extend(r + [Accept(v, addr')], FirstOnline(v));
  }

  lemma ReplacedState(u: nat, addr: string, name: string, v: nat, addr': string)
    requires addr != name && addr' != name && u != v
    ensures IsRun(Replaced(u, addr, name, v, addr'))
    ensures After(Replaced(u, addr, name, v, addr')) ==
            State(map[u := Conn(name, true, Ready, Leaving), v := Conn(name, true, Ready, Active)], map[name := v])
  {
    var gone := Conn(name, true, Ready, Leaving);
    var r := Arrived(u, addr, name, v, addr');
    ArrivedState(u, addr, name, v, addr');
    Extend(r, LoginMove(v, name));
    r := r + [LoginMove(v, name)];
    assert After(r) == State(map[u := gone, v := Conn(addr', false, LoginMoved(name), Active)], map[name := v]);
    Extend(r, LoginName(v));
    r := r + [LoginName(v)];
    assert After(r) == State(map[u := gone, v := Conn(name, false, LoginNamed, Active)], map[name := v]);
    Extend(r, LoginOnline(v));
  }

  /** Then u's rename moves v's key: v is live, but registered under a name that is not its own. */
  lemma KeyCanBeMovedByAnother(u: nat, addr: string, name: string, v: nat, addr': string, target: string)
    requires addr != name && addr' != name && target != name && u != v
    ensures var run := Replaced(u, addr, name, v, addr') + [RenameMove(u, target)];
            && IsRun(run) && v in After(run).conns && Live(After(run).conns[v])
            && After(run).online == map[target := v] && Key(After(run).conns[v]) == name
  {
    ReplacedState(u, addr, name, v, addr');
    Extend(Replaced(u, addr, name, v, addr'), RenameMove(u, target));
  }
}
