/**
 The order in which the clients of a server get its broadcasts.  Fan-outs overlap, so clients may get
 two broadcasts in opposite orders.
 */
module BusOrder {
  import opened Common
  import opened Bus
  import opened BusClients

  function Order(frames: seq<Frame>): (r: seq<nat>)
    ensures |r| == |frames| && forall i :: 0 <= i < |r| ==> r[i] == frames[i].call
  {
    seq(|frames|, i requires 0 <= i < |frames| => frames[i].call)
  }

  /** A client has got broadcasts in the order in which their fan-outs began, without gaps. */
  ghost predicate InOrder(sv: Server, k: nat)
    requires k in sv.clients
  {
    sv.clients[k].since <= |sv.shown| && Order(sv.clients[k].offered) <= Order(Since(sv, k))
  }

  ghost predicate Ordered(st: State) {
    forall s, k :: 0 <= s < |st.servers| && k in st.servers[s].clients ==> InOrder(st.servers[s], k)
  }

  // ----- Frames and how often they occur

  ghost predicate NoRepeats(frames: seq<Frame>) {
    forall i, j :: 0 <= i < j < |frames| ==> frames[i].call != frames[j].call
  }

  ghost predicate Occurs(frames: seq<Frame>, c: nat) {
    exists i :: 0 <= i < |frames| && frames[i].call == c
  }

  lemma {:induction false} OccursIff(frames: seq<Frame>, c: nat)
    ensures Times(frames, c) >= 1 <==> Occurs(frames, c)
  {
    if frames != [] {
      var n := |frames| - 1;
      OccursIff(frames[..n], c);
      assert frames[n] == frames[|frames| - 1];
      if Occurs(frames, c) && frames[n].call != c {
        var i :| 0 <= i < |frames| && frames[i].call == c;
        assert frames[..n][i].call == c;
      }
    }
  }

  lemma {:induction false} OnceIsNoRepeat(frames: seq<Frame>)
    requires forall i :: 0 <= i < |frames| ==> Times(frames, frames[i].call) <= 1
    ensures NoRepeats(frames)
  {
    forall i, j | 0 <= i < j < |frames|
      ensures frames[i].call != frames[j].call
    {
      if frames[i].call == frames[j].call {
        var c := frames[i].call;
        assert frames == frames[..j] + frames[j..];
        TimesOfConcat(frames[..j], frames[j..], 0, c);
        assert frames[..j][i].call == c && frames[j..][0].call == c;
        OccursIff(frames[..j], c);
        OccursIff(frames[j..], c);
      }
    }
  }

  lemma ShownOnce(st: State, s: nat)
    requires Inv(st) && s < |st.servers|
    ensures NoRepeats(st.servers[s].shown)
  {
    var sv := st.servers[s];
    assert ServerOk(sv, s, st.calls, st.log);
    forall i | 0 <= i < |sv.shown|
      ensures Times(sv.shown, sv.shown[i].call) <= 1
    {
      assert CountOk(sv, s, st.calls, st.log, sv.shown[i].call);
    }
    OnceIsNoRepeat(sv.shown);
  }

  // ----- What a client in order is waiting for

  /** Beyond what it has got lies exactly what is pending. */
  lemma RestIsPending(sv: Server, s: nat, k: nat, c: nat)
    requires k in sv.clients && ClientOk(sv, s, k) && InOrder(sv, k) && NoRepeats(Since(sv, k))
    ensures var n := |sv.clients[k].offered|;
            n <= |Since(sv, k)| && (Pending(sv, c, k) <==> Occurs(Since(sv, k)[n..], c))
  {
    var offered, since := sv.clients[k].offered, Since(sv, k);
    var n := |offered|;
    assert TallyOk(sv, k, c);
    assert since == since[..n] + since[n..];
    TimesOfConcat(since[..n], since[n..], s, c);
    SameOrderSameTimes(offered, since[..n], c);
    OccursIff(since[n..], c);
    OnceAtMost(since, c);
  }

  lemma {:induction false} SameOrderSameTimes(a: seq<Frame>, b: seq<Frame>, c: nat)
    requires Order(a) == Order(b)
    ensures Times(a, c) == Times(b, c)
  {
    assert |a| == |Order(a)| == |b|;
    if a != [] {
      var n := |a| - 1;
      assert Order(a[..n]) == Order(a)[..n] == Order(b[..n]);
      assert a[n].call == Order(a)[n] == b[n].call;
      SameOrderSameTimes(a[..n], b[..n], c);
    }
  }

  lemma {:induction false} OnceAtMost(frames: seq<Frame>, c: nat)
    requires NoRepeats(frames)
    ensures Times(frames, c) <= 1
  {
    if frames != [] {
      var n := |frames| - 1;
      OnceAtMost(frames[..n], c);
      OccursIff(frames[..n], c);
    }
  }

  // ----- Overtaking

  /** The fan-out of c began before that of d. */
  ghost predicate Before(frames: seq<Frame>, c: nat, d: nat) {
    exists i, j :: 0 <= i < j < |frames| && frames[i].call == c && frames[j].call == d
  }

  /** A write reaches a client ahead of one whose fan-out began earlier. */
  ghost predicate Overtakes(st: State, step: Step)
    requires Enabled(st, step)
  {
    && step.Write?
    && exists d :: Pending(st.servers[step.server], d, step.client)
                   && Before(st.servers[step.server].shown, d, step.call)
  }

  /** A write keeps a client in order iff it is the next fan-out's. */
  lemma NextInOrder(sv: Server, k: nat, f: Frame)
    requires k in sv.clients && f.call in sv.active && InOrder(sv, k)
    ensures var n := |sv.clients[k].offered|;
            InOrder(Written(sv, k, f), k) <==> n < |Since(sv, k)| && Since(sv, k)[n].call == f.call
  {
    var since, n := Order(Since(sv, k)), |sv.clients[k].offered|;
    var sv' := Written(sv, k, f);
    assert Since(sv', k) == Since(sv, k);
    assert Order(sv'.clients[k].offered) == Order(sv.clients[k].offered) + [f.call];
    if n < |since| && since[n] == f.call {
      assert since[..n + 1] == since[..n] + [f.call];
    }
  }

  lemma PendingAt(sv: Server, s: nat, k: nat, c: nat) returns (i: nat)
    requires k in sv.clients && ClientOk(sv, s, k) && InOrder(sv, k) && NoRepeats(sv.shown)
    requires Pending(sv, c, k)
    ensures |sv.clients[k].offered| <= i < |Since(sv, k)| && Since(sv, k)[i].call == c
  {
    var n := |sv.clients[k].offered|;
    RestIsPending(sv, s, k, c);
    var j :| 0 <= j < |Since(sv, k)[n..]| && Since(sv, k)[n..][j].call == c;
    i := n + j;
  }

  lemma NextIsPending(sv: Server, s: nat, k: nat)
    requires k in sv.clients && ClientOk(sv, s, k) && InOrder(sv, k) && NoRepeats(sv.shown)
    requires |sv.clients[k].offered| < |Since(sv, k)|
    ensures Pending(sv, Since(sv, k)[|sv.clients[k].offered|].call, k)
  {
    var n := |sv.clients[k].offered|;
    assert Since(sv, k)[n..][0] == Since(sv, k)[n];
    RestIsPending(sv, s, k, Since(sv, k)[n].call);
  }

  lemma WriteInOrderIff(sv: Server, s: nat, k: nat, f: Frame)
    requires k in sv.clients && ClientOk(sv, s, k) && InOrder(sv, k) && NoRepeats(sv.shown)
    requires Pending(sv, f.call, k)
    ensures InOrder(Written(sv, k, f), k) <==> !exists d :: Pending(sv, d, k) && Before(sv.shown, d, f.call)
  {
    var since, n, o := Since(sv, k), |sv.clients[k].offered|, sv.clients[k].since;
    NextInOrder(sv, k, f);
    var i := PendingAt(sv, s, k, f.call);
    assert sv.shown[o + i].call == f.call;
    if since[n].call == f.call {
      forall d | Pending(sv, d, k)
        ensures !Before(sv.shown, d, f.call)
      {
        var j := PendingAt(sv, s, k, d);
        assert sv.shown[o + j].call == d;
      }
    } else {
      NextIsPending(sv, s, k);
      assert sv.shown[o + n].call == since[n].call;
    }
  }

  lemma OrderIffNotOvertaken(st: State, step: Step)
    requires Inv(st) && AllClientsOk(st) && Ordered(st) && Enabled(st, step)
    ensures Ordered(Apply(st, step)) <==> !Overtakes(st, step)
  {
    if step.Write? {
      WriteStepOrder(st, step);
    } else {
      forall s, k | 0 <= s < |Apply(st, step).servers| && k in Apply(st, step).servers[s].clients
        ensures InOrder(Apply(st, step).servers[s], k)
      {
        OtherStepOrder(st, step, s, k);
      }
    }
  }

  /** A write to one client leaves the others' order alone. */
  lemma WriteLeavesOthers(st: State, step: Step, s: nat, k: nat)
    requires Ordered(st) && step.Write? && Enabled(st, step)
    requires s < |st.servers| && k in st.servers[s].clients && !(s == step.server && k == step.client)
    ensures k in Apply(st, step).servers[s].clients && InOrder(Apply(st, step).servers[s], k)
  {
    assert InOrder(st.servers[s], k);
    LongerOrder(st.servers[s], Apply(st, step).servers[s], k);
  }

  lemma WriteStepOrder(st: State, step: Step)
    requires Inv(st) && AllClientsOk(st) && Ordered(st) && step.Write? && Enabled(st, step)
    ensures Ordered(Apply(st, step)) <==> !Overtakes(st, step)
  {
    var s, k := step.server, step.client;
    WriterOrder(st, step);
    forall t, l | 0 <= t < |Apply(st, step).servers| && l in Apply(st, step).servers[t].clients && !(t == s && l == k)
      ensures InOrder(Apply(st, step).servers[t], l)
    {
      WriteLeavesOthers(st, step, t, l);
    }
  }

  lemma WriterOrder(st: State, step: Step)
    requires Inv(st) && AllClientsOk(st) && Ordered(st) && step.Write? && Enabled(st, step)
    ensures step.client in Apply(st, step).servers[step.server].clients
    ensures InOrder(Apply(st, step).servers[step.server], step.client) <==> !Overtakes(st, step)
  {
    var s, k := step.server, step.client;
    ShownOnce(st, s);
    assert ClientsOk(st.servers[s], s);
    WriteInOrderIff(st.servers[s], s, k, FrameOf(st, s, step.call, step.time));
  }

  /** A step that is no write leaves what clients have, and adds at most to what they are due. */
  lemma OtherStepOrder(st: State, step: Step, s: nat, k: nat)
    requires Ordered(st) && Enabled(st, step) && !step.Write?
    requires s < |Apply(st, step).servers| && k in Apply(st, step).servers[s].clients
    ensures InOrder(Apply(st, step).servers[s], k)
  {
    var sv' := Apply(st, step).servers[s];
    if s < |st.servers| && k in st.servers[s].clients {
      var sv := st.servers[s];
      assert InOrder(sv, k);
      if Acting(st, step) != Some(s) {
        OthersStay(st, step, s);
      }
      assert sv.shown <= sv'.shown && sv'.clients[k] == sv.clients[k];
      LongerOrder(sv, sv', k);
    }
  }

  lemma LongerOrder(sv: Server, sv': Server, k: nat)
    requires k in sv.clients && InOrder(sv, k) && sv.shown <= sv'.shown
    requires k in sv'.clients && sv'.clients[k] == sv.clients[k]
    ensures InOrder(sv', k)
  {
    assert Since(sv, k) <= Since(sv', k);
  }

  // ----- Whole runs

  ghost predicate OvertakesSometime(steps: seq<Step>)
    requires IsRun(steps)
    decreases |steps|
  {
    steps != [] &&
    (|| OvertakesSometime(steps[..|steps| - 1])
     || Overtakes(After(steps[..|steps| - 1]), steps[|steps| - 1]))
  }

  ghost predicate OrderedThroughout(steps: seq<Step>)
    requires IsRun(steps)
    decreases |steps|
  {
    Ordered(After(steps)) && (steps == [] || OrderedThroughout(steps[..|steps| - 1]))
  }

  /** Clients get broadcasts in the order of the fan-outs exactly when no write overtakes another. */
  lemma {:induction false} OrderedIff(steps: seq<Step>)
    requires IsRun(steps)
    ensures OrderedThroughout(steps) <==> !OvertakesSometime(steps)
  {
    if steps != [] {
      var past := steps[..|steps| - 1];
      OrderedIff(past);
      RunsKeepClients(past);
      if OrderedThroughout(past) {
        OrderIffNotOvertaken(After(past), steps[|steps| - 1]);
      }
    }
  }

  // ----- Overlapping fan-outs

  /** Clients are in order now, and stay so whichever write comes next. */
  ghost predicate Steady(st: State) {
    Ordered(st) && forall step :: Enabled(st, step) && step.Write? ==> Ordered(Apply(st, step))
  }

  /** A fan-out begins while another on the same server still has a client to reach. */
  ghost predicate Overlaps(st: State, step: Step)
    requires Enabled(st, step)
  {
    && (step.Show? || step.Deliver?)
    && exists d, k :: Pending(st.servers[Acting(st, step).value], d, k)
  }

  /** At most one fan-out still has clients to reach. */
  ghost predicate Single(sv: Server) {
    forall c, d, k, l :: Pending(sv, c, k) && Pending(sv, d, l) ==> c == d
  }

  ghost predicate AllSingle(st: State) {
    forall s :: 0 <= s < |st.servers| ==> Single(st.servers[s])
  }

  lemma StepKeepsSingle(st: State, step: Step)
    requires AllSingle(st) && Enabled(st, step) && !Overlaps(st, step)
    ensures AllSingle(Apply(st, step))
  {
    forall s | 0 <= s < |Apply(st, step).servers|
      ensures Single(Apply(st, step).servers[s])
    {
      if s < |st.servers| {
        assert Single(st.servers[s]);
        if Acting(st, step) == Some(s) {
          ActingKeepsSingle(st, step, s);
        } else {
          OthersStay(st, step, s);
        }
      }
    }
  }

  lemma ActingKeepsSingle(st: State, step: Step, s: nat)
    requires Enabled(st, step) && !Overlaps(st, step) && Acting(st, step) == Some(s) && Single(st.servers[s])
    ensures Single(Apply(st, step).servers[s])
  {
    var sv, sv' := st.servers[s], Apply(st, step).servers[s];
    if step.Show? || step.Deliver? {
      var c := if step.Show? then step.call else sv.held.value.call;
      assert forall d, k :: !Pending(sv, d, k);
      assert forall d, k :: Pending(sv', d, k) ==> d == c || Pending(sv, d, k);
    } else {
      assert forall d, k :: Pending(sv', d, k) ==> Pending(sv, d, k);
    }
  }

  lemma SingleIsSteady(st: State)
    requires Inv(st) && AllClientsOk(st) && Ordered(st) && AllSingle(st)
    ensures Steady(st)
  {
    forall step | Enabled(st, step) && step.Write?
      ensures Ordered(Apply(st, step))
    {
      ShownOnce(st, step.server);
      assert Single(st.servers[step.server]);
      assert Pending(st.servers[step.server], step.call, step.client);
      OrderIffNotOvertaken(st, step);
    }
  }

  /** What is pending for a client has been begun. */
  lemma PendingIsShown(sv: Server, s: nat, k: nat, d: nat) returns (i: nat)
    requires k in sv.clients && ClientOk(sv, s, k) && Pending(sv, d, k)
    ensures i < |sv.shown| && sv.shown[i].call == d
  {
    assert TallyOk(sv, k, d);
    OccursIff(Since(sv, k), d);
    var j :| 0 <= j < |Since(sv, k)| && Since(sv, k)[j].call == d;
    i := sv.clients[k].since + j;
  }

  lemma OverlapIsNotSteady(st: State, step: Step)
    requires Inv(st) && AllClientsOk(st) && Ordered(st) && Enabled(st, step) && Overlaps(st, step)
    ensures !Steady(Apply(st, step))
  {
    var st' := Apply(st, step);
    var s := Acting(st, step).value;
    var sv := st.servers[s];
    var c := if step.Show? then step.call else sv.held.value.call;
    var d, k :| Pending(sv, d, k);
    ServerIsOk(st, s);
    assert ClientsOk(sv, s) && ClientOk(sv, s, k);
    var i := PendingIsShown(sv, s, k, d);
    var write := Write(s, c, k, "");
    OverlapBegun(st, step, s, c, d, k, i);
    StepKeepsInv(st, step);
    StepKeepsClients(st, step);
    if Ordered(st') {
      OrderIffNotOvertaken(st', write);
    }
  }

  lemma OverlapBegun(st: State, step: Step, s: nat, c: nat, d: nat, k: nat, i: nat)
    requires Enabled(st, step) && (step.Show? || step.Deliver?) && Acting(st, step) == Some(s)
    requires c == if step.Show? then step.call else st.servers[s].held.value.call
    requires c < |st.calls| && c !in st.servers[s].active && k in st.servers[s].clients
    requires Pending(st.servers[s], d, k) && i < |st.servers[s].shown| && st.servers[s].shown[i].call == d
    ensures Enabled(Apply(st, step), Write(s, c, k, "")) && Overtakes(Apply(st, step), Write(s, c, k, ""))
  {
    var sv, sv' := st.servers[s], Apply(st, step).servers[s];
    assert sv'.shown[|sv.shown|].call == c && sv'.shown[i].call == d;
    assert Before(sv'.shown, d, c);
    assert Pending(sv', d, k);
  }

  ghost predicate OverlapsSometime(steps: seq<Step>)
    requires IsRun(steps)
    decreases |steps|
  {
    steps != [] &&
    (|| OverlapsSometime(steps[..|steps| - 1])
     || Overlaps(After(steps[..|steps| - 1]), steps[|steps| - 1]))
  }

  ghost predicate SteadyThroughout(steps: seq<Step>)
    requires IsRun(steps)
    decreases |steps|
  {
    Steady(After(steps)) && (steps == [] || SteadyThroughout(steps[..|steps| - 1]))
  }

  lemma {:induction false} NoOverlapIsSteady(steps: seq<Step>)
    requires IsRun(steps) && !OverlapsSometime(steps)
    ensures AllSingle(After(steps)) && SteadyThroughout(steps)
  {
    RunsKeepClients(steps);
    if steps != [] {
      var past, last := steps[..|steps| - 1], steps[|steps| - 1];
      NoOverlapIsSteady(past);
      RunsKeepClients(past);
      StepKeepsSingle(After(past), last);
      if !last.Write? {
        OrderIffNotOvertaken(After(past), last);
      }
    }
    SingleIsSteady(After(steps));
  }

  /**
   In every state of a run the clients are in order, now and after whichever write comes next, exactly
   when no fan-out of the run begins while another on the same server still has a client to reach.
   */
  lemma {:induction false} SteadyIff(steps: seq<Step>)
    requires IsRun(steps)
    ensures SteadyThroughout(steps) <==> !OverlapsSometime(steps)
  {
    if !OverlapsSometime(steps) {
      NoOverlapIsSteady(steps);
    } else {
      var past := steps[..|steps| - 1];
      SteadyIff(past);
      RunsKeepClients(past);
      if SteadyThroughout(past) {
        OverlapIsNotSteady(After(past), steps[|steps| - 1]);
      }
    }
  }

  /** Clients in order that connected together have got the same broadcasts in the same order, so far. */
  lemma OrderIsCommon(sv: Server, k: nat, l: nat)
    requires k in sv.clients && l in sv.clients && InOrder(sv, k) && InOrder(sv, l)
    requires sv.clients[k].since == sv.clients[l].since
    ensures || Order(sv.clients[k].offered) <= Order(sv.clients[l].offered)
            || Order(sv.clients[l].offered) <= Order(sv.clients[k].offered)
  {
    var whole := Order(Since(sv, k));
    var a, b := Order(sv.clients[k].offered), Order(sv.clients[l].offered);
    assert a == whole[..|a|] && b == whole[..|b|];
  }

  /** With no overlap, and once no fan-out is under way, every client has exactly the fan-outs in order. */
  lemma {:induction false} QuietOrder(steps: seq<Step>, s: nat, k: nat)
    requires IsRun(steps) && !OverlapsSometime(steps)
    requires s < |After(steps).servers| && k in After(steps).servers[s].clients
    requires After(steps).servers[s].active == map[]
    ensures var sv := After(steps).servers[s];
            sv.clients[k].since <= |sv.shown| && Order(sv.clients[k].offered) == Order(Since(sv, k))
  {
    SteadyIff(steps);
    RunClientOk(steps, s, k);
    RunsKeepInv(steps);
    ShownOnce(After(steps), s);
    var sv := After(steps).servers[s];
    assert InOrder(sv, k);
    if |sv.clients[k].offered| < |Since(sv, k)| {
      NextIsPending(sv, s, k);
    }
  }

  // ----- Opposite orders

  lemma {:induction false} Extend(steps: seq<Step>, step: Step)
    requires IsRun(steps) && Enabled(After(steps), step)
    ensures IsRun(steps + [step]) && After(steps + [step]) == Apply(After(steps), step)
  {
    var more := steps + [step];
    assert more[..|more| - 1] == steps && more[|more| - 1] == step;
  }

  /** Two fan-outs that overlap, and reach two clients in opposite orders. */
  function Crossing(s: nat, c: nat, d: nat, k: nat, l: nat, time: string): seq<Step> {
    [Show(c), Show(d), Write(s, c, k, time), Write(s, d, k, time), Write(s, d, l, time), Write(s, c, l, time)]
  }

  /** Nothing is under way on server s, and it has two calls to show and two clients. */
  ghost predicate Poised(st: State, s: nat, c: nat, d: nat, k: nat, l: nat) {
    && s < |st.servers| && c < |st.calls| && d < |st.calls| && c != d && k != l
    && st.calls[c].origin == s && st.calls[d].origin == s
    && st.calls[c].phase.Started? && st.calls[d].phase.Started?
    && st.servers[s].active == map[] && st.servers[s].relaying.None?
    && k in st.servers[s].clients && l in st.servers[s].clients
  }

  /** Fan-outs c and d of server s are both still to reach client k. */
  ghost predicate Waits(st: State, s: nat, c: nat, d: nat, k: nat) {
    && s < |st.servers| && c < |st.calls| && d < |st.calls| && c != d && st.servers[s].relaying.None?
    && k in st.servers[s].clients && Pending(st.servers[s], c, k) && Pending(st.servers[s], d, k)
  }

  lemma BothShowing(steps: seq<Step>, s: nat, c: nat, d: nat, k: nat, l: nat)
    requires IsRun(steps) && Poised(After(steps), s, c, d, k, l)
    ensures IsRun(steps + [Show(c)] + [Show(d)])
    ensures var st, st' := After(steps), After(steps + [Show(c)] + [Show(d)]);
            && Waits(st', s, c, d, k) && Waits(st', s, d, c, l)
            && st'.servers[s].clients == st.servers[s].clients
  {
    Extend(steps, Show(c));
    Extend(steps + [Show(c)], Show(d));
  }

  lemma OneWrite(steps: seq<Step>, s: nat, c: nat, k: nat, time: string)
    requires IsRun(steps) && Enabled(After(steps), Write(s, c, k, time)) && After(steps).servers[s].relaying.None?
    ensures IsRun(steps + [Write(s, c, k, time)])
    ensures var st, st' := After(steps), After(steps + [Write(s, c, k, time)]);
            && |st'.servers| == |st.servers| && st'.calls == st.calls && st'.servers[s].relaying.None?
            && st'.servers[s].active == st.servers[s].active[c := st.servers[s].active[c] - {k}]
            && st'.servers[s].clients.Keys == st.servers[s].clients.Keys
            && (forall l :: l in st.servers[s].clients && l != k ==>
                  st'.servers[s].clients[l] == st.servers[s].clients[l])
            && Order(st'.servers[s].clients[k].offered) == Order(st.servers[s].clients[k].offered) + [c]
  {
    Extend(steps, Write(s, c, k, time));
  }

  lemma TwoWrites(steps: seq<Step>, s: nat, c: nat, d: nat, k: nat, l: nat, time: string)
    requires IsRun(steps) && Waits(After(steps), s, c, d, k) && l in After(steps).servers[s].clients && k != l
    ensures IsRun(steps + [Write(s, c, k, time)] + [Write(s, d, k, time)])
    ensures var st, st' := After(steps), After(steps + [Write(s, c, k, time)] + [Write(s, d, k, time)]);
            && s < |st'.servers| && k in st'.servers[s].clients && l in st'.servers[s].clients
            && Order(st'.servers[s].clients[k].offered) == Order(st.servers[s].clients[k].offered) + [c, d]
            && st'.servers[s].clients[l] == st.servers[s].clients[l]
            && (Waits(st, s, d, c, l) ==> Waits(st', s, d, c, l))
  {
    var half := steps + [Write(s, c, k, time)];
    OneWrite(steps, s, c, k, time);
    assert Enabled(After(half), Write(s, d, k, time));
    OneWrite(half, s, d, k, time);
    var before := Order(After(steps).servers[s].clients[k].offered);
    assert before + [c] + [d] == before + [c, d];
  }

  /** From any such state two clients can get the two broadcasts in opposite orders. */
  lemma OppositeOrders(steps: seq<Step>, s: nat, c: nat, d: nat, k: nat, l: nat, time: string)
    requires IsRun(steps) && Poised(After(steps), s, c, d, k, l)
    ensures var run := steps + Crossing(s, c, d, k, l, time);
            && IsRun(run) && s < |After(run).servers|
            && k in After(run).servers[s].clients && l in After(run).servers[s].clients
            && Order(After(run).servers[s].clients[k].offered)
            == Order(After(steps).servers[s].clients[k].offered) + [c, d]
            && Order(After(run).servers[s].clients[l].offered)
            == Order(After(steps).servers[s].clients[l].offered) + [d, c]
  {
    var shown := steps + [Show(c)] + [Show(d)];
    BothShowing(steps, s, c, d, k, l);
    TwoWrites(shown, s, c, d, k, l, time);
    var half := shown + [Write(s, c, k, time)] + [Write(s, d, k, time)];
    TwoWrites(half, s, d, c, l, k, time);
    assert steps + Crossing(s, c, d, k, l, time) == half + [Write(s, d, l, time)] + [Write(s, c, l, time)];
  }

  /** A server with two clients. */
  function Pair(id: string): seq<Step> {
    [Start(id)] + [Connect(0, 0)] + [Connect(0, 1)]
  }

  lemma PairState(id: string)
    ensures IsRun(Pair(id))
    ensures After(Pair(id)) ==
            State([Server(id, 0, 0, None, None, [], map[], map[0 := Client(0, []), 1 := Client(0, [])])], [], [])
  {
    Extend([], Start(id));
    assert [] + [Start(id)] == [Start(id)];
    assert After([Start(id)]) == State([Server(id, 0, 0, None, None, [], map[], map[])], [], []);
    Extend([Start(id)], Connect(0, 0));
    assert After([Start(id)] + [Connect(0, 0)])
        == State([Server(id, 0, 0, None, None, [], map[], map[0 := Client(0, [])])], [], []);
    Extend([Start(id)] + [Connect(0, 0)], Connect(0, 1));
  }

  /** And two broadcasts. */
  function Meeting(id: string, first: Step, second: Step): seq<Step> {
    Pair(id) + [first] + [second]
  }

  lemma MeetingIsPoised(id: string, first: Step, second: Step)
    requires first.Begin? && first.server == 0 && second.Begin? && second.server == 0
    ensures IsRun(Meeting(id, first, second)) && Poised(After(Meeting(id, first, second)), 0, 0, 1, 0, 1)
    ensures After(Meeting(id, first, second)).servers[0].clients == map[0 := Client(0, []), 1 := Client(0, [])]
  {
    PairState(id);
    Extend(Pair(id), first);
    Extend(Pair(id) + [first], second);
  }

  /** Such a run exists: of two clients that connected together one gets 0, 1 and the other 1, 0. */
  lemma OrderCanDiffer(id: string, first: Step, second: Step, time: string)
    requires first.Begin? && first.server == 0 && second.Begin? && second.server == 0
    ensures var run := Meeting(id, first, second) + Crossing(0, 0, 1, 0, 1, time);
            && IsRun(run) && |After(run).servers| > 0
            && 0 in After(run).servers[0].clients && Order(After(run).servers[0].clients[0].offered) == [0, 1]
            && 1 in After(run).servers[0].clients && Order(After(run).servers[0].clients[1].offered) == [1, 0]
  {
    MeetingIsPoised(id, first, second);
    OppositeOrders(Meeting(id, first, second), 0, 0, 1, 0, 1, time);
  }
}
