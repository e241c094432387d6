/**
 What the WebSocket clients of a server get from the fan-outs of module Bus, which overlap: of each
 broadcast at most one frame, other servers' broadcasts in log order, but local ones in any order.
 */
module BusClients {
  import opened Common
  import opened Bus
  import opened BusRuns

  /** Fan-out c is under way and has not reached client k yet. */
  predicate Pending(sv: Server, c: nat, k: nat) {
    c in sv.active && k in sv.active[c]
  }

  /** The fan-outs begun since a client connected. */
  function Since(sv: Server, k: nat): seq<Frame>
    requires k in sv.clients && sv.clients[k].since <= |sv.shown|
  {
    sv.shown[sv.clients[k].since..]
  }

  /** The frame of another server's broadcast that a client is still to get. */
  function Due(sv: Server, k: nat): seq<Frame> {
    if sv.relaying.Some? && Pending(sv, sv.relaying.value.call, k) then [RelayFrame(sv.relaying.value)] else []
  }

  // ----- Invariant

  ghost predicate TallyOk(sv: Server, k: nat, c: nat)
    requires k in sv.clients && sv.clients[k].since <= |sv.shown|
  {
    Times(sv.clients[k].offered, c) + (if Pending(sv, c, k) then 1 else 0) == Times(Since(sv, k), c)
  }

  ghost predicate ClientOk(sv: Server, s: nat, k: nat)
    requires k in sv.clients
  {
    && sv.clients[k].since <= |sv.shown|
    && (forall c: nat :: TallyOk(sv, k, c))
    && Foreign(sv.clients[k].offered, s) + Due(sv, k) == Foreign(Since(sv, k), s)
  }

  ghost predicate ClientsOk(sv: Server, s: nat) {
    forall k :: k in sv.clients ==> ClientOk(sv, s, k)
  }

  ghost predicate TextOk(f: Frame, calls: seq<Call>) {
    && f.call < |calls| && f.origin == calls[f.call].origin
    && SameText(LocalFrame(calls[f.call], ""), f.out)
  }

  ghost predicate TextsOk(sv: Server, calls: seq<Call>) {
    forall k, i :: k in sv.clients && 0 <= i < |sv.clients[k].offered| ==> TextOk(sv.clients[k].offered[i], calls)
  }

  ghost predicate AllClientsOk(st: State) {
    forall s :: 0 <= s < |st.servers| ==> ClientsOk(st.servers[s], s)
  }

  ghost predicate AllTextsOk(st: State) {
    forall s :: 0 <= s < |st.servers| ==> TextsOk(st.servers[s], st.calls)
  }

  // ----- Each step keeps it

  lemma BeginReaches(sv: Server, s: nat, f: Frame, k: nat)
    requires k in sv.clients && ClientOk(sv, s, k) && f.origin == s && f.call !in sv.active
    requires sv.relaying.Some? ==> sv.relaying.value.call in sv.active
    ensures ClientOk(FanOut(sv, f), s, k)
  {
    var sv' := FanOut(sv, f);
    assert Since(sv', k) == Since(sv, k) + [f];
    Appended(Since(sv, k), f, s);
    assert Due(sv', k) == Due(sv, k);
    forall c: nat
      ensures TallyOk(sv', k, c)
    {
      assert TallyOk(sv, k, c);
    }
  }

  lemma BeginLocal(sv: Server, s: nat, f: Frame)
    requires ClientsOk(sv, s) && f.origin == s && f.call !in sv.active
    requires sv.relaying.Some? ==> sv.relaying.value.call in sv.active
    ensures ClientsOk(FanOut(sv, f), s)
  {
    forall k | k in sv.clients
      ensures ClientOk(FanOut(sv, f), s, k)
    {
      BeginReaches(sv, s, f, k);
    }
  }

  lemma RelayReaches(sv: Server, s: nat, e: Entry, k: nat)
    requires k in sv.clients && ClientOk(sv, s, k)
    requires e.origin != s && e.call !in sv.active && sv.relaying.None?
    ensures ClientOk(FanOut(sv, RelayFrame(e)).(held := None, relaying := Some(e)), s, k)
  {
    var f := RelayFrame(e);
    var sv' := FanOut(sv, f).(held := None, relaying := Some(e));
    assert Since(sv', k) == Since(sv, k) + [f];
    Appended(Since(sv, k), f, s);
    forall c: nat
      ensures TallyOk(sv', k, c)
    {
      assert TallyOk(sv, k, c);
    }
  }

  lemma BeginRelay(sv: Server, s: nat, e: Entry)
    requires ClientsOk(sv, s) && e.origin != s && e.call !in sv.active && sv.relaying.None?
    ensures ClientsOk(FanOut(sv, RelayFrame(e)).(held := None, relaying := Some(e)), s)
  {
    forall k | k in sv.clients
      ensures ClientOk(FanOut(sv, RelayFrame(e)).(held := None, relaying := Some(e)), s, k)
    {
      RelayReaches(sv, s, e, k);
    }
  }

  lemma {:induction false} WriteIsCounted(sv: Server, s: nat, k: nat, f: Frame, c: nat)
    requires k in sv.clients && sv.clients[k].since <= |sv.shown| && Pending(sv, f.call, k) && TallyOk(sv, k, c)
    ensures TallyOk(Written(sv, k, f), k, c)
  {
    var sv' := Written(sv, k, f);
    assert Since(sv', k) == Since(sv, k);
    assert Pending(sv', c, k) <==> Pending(sv, c, k) && c != f.call;
    assert Times(sv'.clients[k].offered, c) == Times(sv.clients[k].offered, c) + if f.call == c then 1 else 0 by {
      Appended(sv.clients[k].offered, f, s);
    }
  }

  lemma WriteReaches(sv: Server, s: nat, k: nat, f: Frame)
    requires k in sv.clients && ClientOk(sv, s, k) && Pending(sv, f.call, k)
    requires if Relaying(sv, f.call) then f == RelayFrame(sv.relaying.value) && f.origin != s else f.origin == s
    ensures ClientOk(Written(sv, k, f), s, k)
  {
    var sv' := Written(sv, k, f);
    assert Since(sv', k) == Since(sv, k);
    assert Foreign(sv'.clients[k].offered, s) + Due(sv', k) == Foreign(sv.clients[k].offered, s) + Due(sv, k) by {
      Appended(sv.clients[k].offered, f, s);
    }
    forall c: nat
      ensures TallyOk(sv', k, c)
    {
      assert TallyOk(sv, k, c);
      WriteIsCounted(sv, s, k, f, c);
    }
  }

  lemma WriteSparesOthers(sv: Server, s: nat, k: nat, f: Frame, l: nat)
    requires k in sv.clients && f.call in sv.active && l in sv.clients && l != k && ClientOk(sv, s, l)
    ensures ClientOk(Written(sv, k, f), s, l)
  {
    var sv' := Written(sv, k, f);
    assert Since(sv', l) == Since(sv, l) && Due(sv', l) == Due(sv, l);
    forall c: nat
      ensures TallyOk(sv', l, c)
    {
      assert TallyOk(sv, l, c);
    }
  }

  lemma WriteKeepsClients(sv: Server, s: nat, k: nat, f: Frame)
    requires ClientsOk(sv, s) && k in sv.clients && Pending(sv, f.call, k)
    requires if Relaying(sv, f.call) then f == RelayFrame(sv.relaying.value) && f.origin != s else f.origin == s
    ensures ClientsOk(Written(sv, k, f), s)
  {
    WriteReaches(sv, s, k, f);
    forall l | l in sv.clients && l != k
      ensures ClientOk(Written(sv, k, f), s, l)
    {
      WriteSparesOthers(sv, s, k, f, l);
    }
  }

  /** Changes that leave the clients, the fan-outs and what is pending as they are. */
  lemma SameClients(sv: Server, sv': Server, s: nat)
    requires ClientsOk(sv, s) && sv'.shown == sv.shown && sv'.clients == sv.clients
    requires forall c: nat, k: nat :: Pending(sv', c, k) == Pending(sv, c, k)
    requires forall k: nat :: Due(sv', k) == Due(sv, k)
    ensures ClientsOk(sv', s)
  {
    forall k | k in sv'.clients
      ensures ClientOk(sv', s, k)
    {
      assert ClientOk(sv, s, k);
      assert Since(sv', k) == Since(sv, k);
      assert forall c: nat :: TallyOk(sv, k, c) ==> TallyOk(sv', k, c);
    }
  }

  lemma ConnectKeepsClients(sv: Server, s: nat, k: nat)
    requires ClientsOk(sv, s) && sv.active == map[]
    ensures ClientsOk(sv.(clients := sv.clients[k := Client(|sv.shown|, [])]), s)
  {
    var sv' := sv.(clients := sv.clients[k := Client(|sv.shown|, [])]);
    forall l | l in sv'.clients
      ensures ClientOk(sv', s, l)
    {
      if l != k {
        assert ClientOk(sv, s, l);
        assert forall c: nat :: TallyOk(sv, l, c) ==> TallyOk(sv', l, c);
      }
    }
  }

  lemma DisconnectKeepsClients(sv: Server, s: nat, k: nat)
    requires ClientsOk(sv, s)
    ensures ClientsOk(sv.(clients := sv.clients - {k}), s)
  {
    var sv' := sv.(clients := sv.clients - {k});
    forall l | l in sv'.clients
      ensures ClientOk(sv', s, l)
    {
      assert ClientOk(sv, s, l);
      assert forall c: nat :: TallyOk(sv, l, c) ==> TallyOk(sv', l, c);
    }
  }

  /** What Bus knows about the server that acts. */
  lemma ServerIsOk(st: State, s: nat)
    requires Inv(st) && s < |st.servers|
    ensures ActiveOk(st.servers[s], s, st.calls) && ReaderOk(st.servers[s], st.log)
    ensures var sv := st.servers[s];
            sv.held.Some? && sv.held.value.msg.originID != sv.id ==>
              && EntryOk(sv.held.value, st.calls, st.servers)
              && sv.held.value.origin != s && sv.held.value.call !in sv.active && sv.relaying.None?
    ensures var sv := st.servers[s];
            sv.relaying.Some? ==> EntryOk(sv.relaying.value, st.calls, st.servers)
  {
    assert ServerOk(st.servers[s], s, st.calls, st.log);
    if st.servers[s].held.Some? {
      HeldIsOwn(st, s);
    }
    if st.servers[s].relaying.Some? {
      assert EntryOk(st.log[st.servers[s].cursor - 1], st.calls, st.servers);
    }
  }

  lemma WriteStepKeepsClients(st: State, step: Step)
    requires step.Write? && Enabled(st, step)
    requires ActiveOk(st.servers[step.server], step.server, st.calls)
    requires ClientsOk(st.servers[step.server], step.server)
    ensures ClientsOk(Apply(st, step).servers[step.server], step.server)
  {
    var sv, f := st.servers[step.server], FrameOf(st, step.server, step.call, step.time);
    assert Pending(sv, f.call, step.client);
    WriteKeepsClients(sv, step.server, step.client, f);
  }

  lemma FanOutStepKeepsClients(st: State, step: Step, s: nat)
    requires (step.Show? || step.Deliver?) && Enabled(st, step)
    requires s == if step.Show? then st.calls[step.call].origin else step.server
    requires ActiveOk(st.servers[s], s, st.calls) && ClientsOk(st.servers[s], s)
    requires step.Deliver? ==>
               var sv := st.servers[s];
               sv.held.value.origin != s && sv.held.value.call !in sv.active && sv.relaying.None?
    ensures ClientsOk(Apply(st, step).servers[s], s)
  {
    if step.Show? {
      BeginLocal(st.servers[s], s, Frame(step.call, s, LocalFrame(st.calls[step.call], "")));
    } else {
      BeginRelay(st.servers[s], s, st.servers[s].held.value);
    }
  }

  lemma OtherStepKeepsClients(st: State, step: Step)
    requires step.Connect? || step.Disconnect? || step.Receive? || step.Skip? || step.Finish?
    requires Enabled(st, step) && ClientsOk(st.servers[step.server], step.server)
    requires st.servers[step.server].relaying.Some? ==> !step.Receive?
    ensures ClientsOk(Apply(st, step).servers[step.server], step.server)
  {
    var s := step.server;
    var sv, sv' := st.servers[s], Apply(st, step).servers[s];
    match step
    case Connect(_, k) => ConnectKeepsClients(sv, s, k);
    case Disconnect(_, k) => DisconnectKeepsClients(sv, s, k);
    case Receive(_) => SameClients(sv, sv', s);
    case Skip(_) => SameClients(sv, sv', s);
    case Finish(_, _) => SameClients(sv, sv', s);
  }

  /** The server whose lock or receiver a step uses. */
  function Acting(st: State, step: Step): (s: Option<nat>)
    requires Enabled(st, step)
    ensures s.Some? ==> s.value < |st.servers|
  {
    match step
    case Start(_) => None
    case Begin(_, _, _, _, _) => None
    case Publish(_, _, _) => None
    case Show(c) => Some(st.calls[c].origin)
    case Connect(s, _) => Some(s)
    case Disconnect(s, _) => Some(s)
    case Receive(s) => Some(s)
    case Skip(s) => Some(s)
    case Deliver(s) => Some(s)
    case Write(s, _, _, _) => Some(s)
    case Finish(s, _) => Some(s)
  }

  lemma ActingKeepsClients(st: State, step: Step, s: nat)
    requires Inv(st) && Enabled(st, step) && Acting(st, step) == Some(s) && ClientsOk(st.servers[s], s)
    ensures ClientsOk(Apply(st, step).servers[s], s)
  {
    ServerIsOk(st, s);
    if step.Show? || step.Deliver? {
      FanOutStepKeepsClients(st, step, s);
    } else if step.Write? {
      WriteStepKeepsClients(st, step);
    } else {
      OtherStepKeepsClients(st, step);
    }
  }

  lemma OthersStay(st: State, step: Step, s: nat)
    requires Enabled(st, step) && s < |st.servers| && Acting(st, step) != Some(s)
    ensures s < |Apply(st, step).servers| && Apply(st, step).servers[s] == st.servers[s]
  {
  }

  lemma StepKeepsClients(st: State, step: Step)
    requires Inv(st) && AllClientsOk(st) && Enabled(st, step)
    ensures AllClientsOk(Apply(st, step))
  {
    var st' := Apply(st, step);
    forall s | 0 <= s < |st'.servers|
      ensures ClientsOk(st'.servers[s], s)
    {
      if Acting(st, step) == Some(s) {
        ActingKeepsClients(st, step, s);
      } else if s < |st.servers| {
        OthersStay(st, step, s);
      }
    }
  }

  // ----- Texts

  lemma CallsKeepText(st: State, step: Step, f: Frame)
    requires Enabled(st, step) && TextOk(f, st.calls)
    ensures TextOk(f, Apply(st, step).calls)
  {
  }

  lemma FrameText(st: State, s: nat, c: nat, time: string)
    requires s < |st.servers| && c in st.servers[s].active && ActiveOk(st.servers[s], s, st.calls)
    requires st.servers[s].relaying.Some? ==> EntryOk(st.servers[s].relaying.value, st.calls, st.servers)
    ensures c < |st.calls| && TextOk(FrameOf(st, s, c, time), st.calls)
  {
  }

  lemma WrittenText(st: State, step: Step)
    requires Inv(st) && step.Write? && Enabled(st, step)
    ensures TextOk(FrameOf(st, step.server, step.call, step.time), st.calls)
  {
    assert ActiveOk(st.servers[step.server], step.server, st.calls)
        && (st.servers[step.server].relaying.Some? ==>
              EntryOk(st.servers[step.server].relaying.value, st.calls, st.servers)) by {
      ServerIsOk(st, step.server);
    }
    FrameText(st, step.server, step.call, step.time);
  }

  /** A frame a client has been offered was there before, or is the one written. */
  lemma OfferedBefore(st: State, step: Step, s: nat, k: nat, i: nat)
    requires Enabled(st, step) && s < |Apply(st, step).servers|
    requires k in Apply(st, step).servers[s].clients && i < |Apply(st, step).servers[s].clients[k].offered|
    ensures var f := Apply(st, step).servers[s].clients[k].offered[i];
            || (&& s < |st.servers| && k in st.servers[s].clients && i < |st.servers[s].clients[k].offered|
                && f == st.servers[s].clients[k].offered[i])
            || (step.Write? && f == FrameOf(st, step.server, step.call, step.time))
  {
    if Acting(st, step) != Some(s) && s < |st.servers| {
      OthersStay(st, step, s);
    }
  }

  lemma StepKeepsText(st: State, step: Step, s: nat, k: nat, i: nat)
    requires Inv(st) && AllTextsOk(st) && Enabled(st, step) && s < |Apply(st, step).servers|
    requires k in Apply(st, step).servers[s].clients && i < |Apply(st, step).servers[s].clients[k].offered|
    ensures TextOk(Apply(st, step).servers[s].clients[k].offered[i], Apply(st, step).calls)
  {
    var f := Apply(st, step).servers[s].clients[k].offered[i];
    OfferedBefore(st, step, s, k, i);
    assert TextOk(f, st.calls) by {
      if step.Write? && f == FrameOf(st, step.server, step.call, step.time) {
        WrittenText(st, step);
      } else {
        assert TextsOk(st.servers[s], st.calls);
      }
    }
    CallsKeepText(st, step, f);
  }

  lemma StepKeepsTexts(st: State, step: Step)
    requires Inv(st) && AllTextsOk(st) && Enabled(st, step)
    ensures AllTextsOk(Apply(st, step))
  {
    var servers := Apply(st, step).servers;
    forall s, k, i | 0 <= s < |servers| && k in servers[s].clients && 0 <= i < |servers[s].clients[k].offered|
      ensures TextOk(servers[s].clients[k].offered[i], Apply(st, step).calls)
    {
      StepKeepsText(st, step, s, k, i);
    }
  }

  lemma {:induction false} RunsKeepClients(steps: seq<Step>)
    requires IsRun(steps)
    ensures Inv(After(steps)) && AllClientsOk(After(steps)) && AllTextsOk(After(steps))
  {
    RunsKeepInv(steps);
    if steps != [] {
      var past := steps[..|steps| - 1];
      RunsKeepClients(past);
      StepKeepsClients(After(past), steps[|steps| - 1]);
      StepKeepsTexts(After(past), steps[|steps| - 1]);
    }
  }

  // ----- Main results, for every run

  lemma {:induction false} TimesOfConcat(a: seq<Frame>, b: seq<Frame>, s: nat, c: nat)
    ensures Times(a + b, c) == Times(a, c) + Times(b, c)
    ensures Foreign(a + b, s) == Foreign(a, s) + Foreign(b, s)
  {
    if b == [] {
      assert a + b == a;
    } else {
      var n := |b| - 1;
      TimesOfConcat(a, b[..n], s, c);
      assert a + b == a + b[..n] + [b[n]] && b == b[..n] + [b[n]];
      Appended(a + b[..n], b[n], s);
    }
  }

  lemma {:induction false} RunClientOk(steps: seq<Step>, s: nat, k: nat)
    requires IsRun(steps) && s < |After(steps).servers| && k in After(steps).servers[s].clients
    ensures var sv := After(steps).servers[s];
            ClientOk(sv, s, k) && sv.shown == sv.shown[..sv.clients[k].since] + Since(sv, k)
  {
    RunsKeepClients(steps);
    assert ClientsOk(After(steps).servers[s], s);
  }

  /**
   A connected client has been offered, or is about to be, exactly the fan-outs begun since it connected;
   no broadcast more than once.
   */
  lemma {:induction false} EveryFanOutReachesOnce(steps: seq<Step>, s: nat, k: nat, c: nat)
    requires IsRun(steps) && s < |After(steps).servers| && k in After(steps).servers[s].clients
    requires c < |After(steps).calls|
    ensures var sv := After(steps).servers[s];
            && sv.clients[k].since <= |sv.shown|
            && Times(sv.clients[k].offered, c) + (if Pending(sv, c, k) then 1 else 0) == Times(Since(sv, k), c) <= 1
  {
    RunClientOk(steps, s, k);
    ExactlyOnce(steps, s, c);
    var sv := After(steps).servers[s];
    assert TallyOk(sv, k, c);
    TimesOfConcat(sv.shown[..sv.clients[k].since], Since(sv, k), s, c);
  }

  /**
   Other servers' broadcasts come in log order: those begun before the client connected, those it has
   been offered and the one it may be about to get are the relayed log since the subscription.
   */
  lemma {:induction false} RelayedInLogOrder(steps: seq<Step>, s: nat, k: nat)
    requires IsRun(steps) && s < |After(steps).servers| && k in After(steps).servers[s].clients
    ensures var st := After(steps); var sv := st.servers[s];
            && sv.clients[k].since <= |sv.shown| && sv.joined <= Handled(sv) <= |st.log|
            && Foreign(sv.shown[..sv.clients[k].since], s) + Foreign(sv.clients[k].offered, s) + Due(sv, k)
            == Relay(st.log, s, sv.joined, Handled(sv))
  {
    RunClientOk(steps, s, k);
    RelayIsFaithful(steps, s);
    var sv := After(steps).servers[s];
    TimesOfConcat(sv.shown[..sv.clients[k].since], Since(sv, k), s, 0);
  }

  /** Every frame offered to a client carries the broadcast it belongs to. */
  lemma {:induction false} OfferedTextIsPreserved(steps: seq<Step>, s: nat, k: nat, i: nat)
    requires IsRun(steps) && s < |After(steps).servers| && k in After(steps).servers[s].clients
    requires i < |After(steps).servers[s].clients[k].offered|
    ensures var f := After(steps).servers[s].clients[k].offered[i];
            && f.call < |Begins(steps)| && Begins(steps)[f.call].Begin?
            && f.origin == Begins(steps)[f.call].server && Carries(f.out, Begins(steps)[f.call])
  {
    RunsKeepClients(steps);
    CallsAreBegun(steps);
    var st := After(steps);
    assert TextsOk(st.servers[s], st.calls);
    var f := st.servers[s].clients[k].offered[i];
    LocalFrameCarries(st.calls[f.call], Begins(steps)[f.call], f.out);
  }

  /** What a write puts into a client's queue: at the origin with the label of that moment, elsewhere with the log's. */
  lemma {:induction false} WriteIs(steps: seq<Step>, s: nat, c: nat, k: nat, time: string)
    requires IsRun(steps) && Enabled(After(steps), Write(s, c, k, time))
    ensures var st, b := After(steps), Begins(steps);
            var before, after := st.servers[s].clients[k].offered, Apply(st, Write(s, c, k, time)).servers[s].clients;
            && k in after && c < |b| && b[c].Begin? && |after[k].offered| == |before| + 1 && before <= after[k].offered
            && if b[c].server == s then after[k].offered[|before|] == Frame(c, s, Looks(b[c], time))
               else exists p :: && 0 <= p < |st.log| && st.log[p].call == c
                                && after[k].offered[|before|] == RelayFrame(st.log[p])
  {
    var st := After(steps);
    RunsKeepInv(steps);
    ServerIsOk(st, s);
    CallsAreBegun(steps);
    assert CallOf(st.calls[c], Begins(steps)[c]);
  }

  /** A step begins a fan-out on server s. */
  ghost predicate BeginsFanOut(past: seq<Step>, step: Step, s: nat) {
    || step == Deliver(s)
    || (step.Show? && step.call < |Begins(past)| && Begins(past)[step.call].Begin?
        && Begins(past)[step.call].server == s)
  }

  ghost function FanOuts(steps: seq<Step>, s: nat): nat {
    if steps == [] then 0
    else
      var past, last := steps[..|steps| - 1], steps[|steps| - 1];
      FanOuts(past, s) + if BeginsFanOut(past, last, s) then 1 else 0
  }

  /** How many fan-outs server s had begun when client k last connected to it. */
  ghost function ConnectedAfter(steps: seq<Step>, s: nat, k: nat): nat {
    if steps == [] then 0
    else
      var past := steps[..|steps| - 1];
      if steps[|steps| - 1] == Connect(s, k) then FanOuts(past, s) else ConnectedAfter(past, s, k)
  }

  /** A client's account starts when it connects. */
  lemma {:induction false} AccountStartsNow(steps: seq<Step>, s: nat)
    requires IsRun(steps) && s < |After(steps).servers|
    ensures |After(steps).servers[s].shown| == FanOuts(steps, s)
    ensures forall k :: k in After(steps).servers[s].clients ==>
              After(steps).servers[s].clients[k].since == ConnectedAfter(steps, s, k)
  {
    var past, last := steps[..|steps| - 1], steps[|steps| - 1];
    CallsAreBegun(past);
    if s < |After(past).servers| {
      AccountStartsNow(past, s);
      StepKeepsAccount(After(past), last, s);
    } else {
      NothingBefore(past, s);
    }
  }

  lemma StepKeepsAccount(st: State, step: Step, s: nat)
    requires Enabled(st, step) && s < |st.servers|
    ensures var sv, sv' := st.servers[s], Apply(st, step).servers[s];
            && |sv'.shown| == |sv.shown| + (if step == Deliver(s) || (step.Show? && st.calls[step.call].origin == s)
                                            then 1 else 0)
            && forall k :: k in sv'.clients ==>
                 if step == Connect(s, k) then sv'.clients[k].since == |sv.shown|
                 else k in sv.clients && sv'.clients[k].since == sv.clients[k].since
  {
    if Acting(st, step) != Some(s) {
      OthersStay(st, step, s);
    }
  }

  /** Before a server starts nothing is fanned out on it. */
  lemma {:induction false} NothingBefore(steps: seq<Step>, s: nat)
    requires IsRun(steps) && s >= |After(steps).servers|
    ensures FanOuts(steps, s) == 0
  {
    if steps != [] {
      var past := steps[..|steps| - 1];
      NothingBefore(past, s);
      CallsAreBegun(past);
      RunsKeepInv(past);
    }
  }

  /** When a server has caught up, a client there from the start has every published broadcast once. */
  lemma {:induction false} QuietClientIsComplete(steps: seq<Step>, s: nat, k: nat, c: nat)
    requires IsRun(steps) && s < |After(steps).servers| && c < |After(steps).calls|
    requires After(steps).calls[c].phase == Done(true)
    requires var sv := After(steps).servers[s];
             && sv.joined == 0 && sv.held.None? && sv.cursor == |After(steps).log| && sv.active == map[]
             && k in sv.clients && sv.clients[k].since == 0
    ensures Times(After(steps).servers[s].clients[k].offered, c) == 1
  {
    QuietStateIsComplete(steps, s, c);
    EveryFanOutReachesOnce(steps, s, k, c);
    var sv := After(steps).servers[s];
    assert Since(sv, k) == sv.shown;
  }
}
