/**
 What the runs of module Bus come to, read off their steps: the text of every fan-out is that of the
 broadcast it belongs to, and a server relays what is published after it started.
 */
module BusRuns {
  import opened Bus

  // ----- Broadcasts

  /** The broadcasts asked for, in order: call c is the c-th of them. */
  function Begins(steps: seq<Step>): seq<Step> {
    if steps == [] then []
    else
      var last := steps[|steps| - 1];
      Begins(steps[..|steps| - 1]) + if last.Begin? then [last] else []
  }

  /** What a client must get of a broadcast: who says what, or one line of text if it is a system message. */
  ghost predicate Carries(o: Outgoing, b: Step)
    requires b.Begin?
  {
    if b.system then o == System(b.name + " " + b.text)
    else o.Public? && o.from == b.name && o.avatar == b.avatar && o.content == b.text
  }

  ghost predicate CallOf(call: Call, b: Step) {
    b.Begin? && call == Call(b.server, b.name, b.text, b.avatar, b.system, call.phase)
  }

  lemma {:induction false} CallsAreBegun(steps: seq<Step>)
    requires IsRun(steps)
    ensures |After(steps).calls| == |Begins(steps)|
    ensures forall c :: 0 <= c < |Begins(steps)| ==> CallOf(After(steps).calls[c], Begins(steps)[c])
  {
    if steps != [] {
      CallsAreBegun(steps[..|steps| - 1]);
      StepKeepsCalls(After(steps[..|steps| - 1]), steps[|steps| - 1], Begins(steps[..|steps| - 1]));
    }
  }

  lemma StepKeepsCalls(st: State, step: Step, begins: seq<Step>)
    requires Enabled(st, step) && |st.calls| == |begins|
    requires forall c :: 0 <= c < |begins| ==> CallOf(st.calls[c], begins[c])
    ensures var calls := Apply(st, step).calls;
            && |calls| == |begins| + (if step.Begin? then 1 else 0)
            && (forall c :: 0 <= c < |begins| ==> CallOf(calls[c], begins[c]))
            && (step.Begin? ==> CallOf(calls[|begins|], step))
  {
  }

  lemma LocalFrameCarries(call: Call, b: Step, o: Outgoing)
    requires CallOf(call, b) && SameText(LocalFrame(call, ""), o)
    ensures b.Begin? && Carries(o, b)
  {
  }

  /** Every fan-out anywhere carries the broadcast it belongs to. */
  lemma {:induction false} TextIsPreserved(steps: seq<Step>, s: nat, i: nat)
    requires IsRun(steps) && s < |After(steps).servers| && i < |After(steps).servers[s].shown|
    ensures var f := After(steps).servers[s].shown[i];
            && f.call < |Begins(steps)| && Begins(steps)[f.call].Begin?
            && f.origin == Begins(steps)[f.call].server && Carries(f.out, Begins(steps)[f.call])
  {
    RunsKeepInv(steps);
    CallsAreBegun(steps);
    var st := After(steps);
    assert ServerOk(st.servers[s], s, st.calls, st.log);
    var f := st.servers[s].shown[i];
    LocalFrameCarries(st.calls[f.call], Begins(steps)[f.call], f.out);
  }

  function Starts(steps: seq<Step>): nat {
    if steps == [] then 0 else Starts(steps[..|steps| - 1]) + if steps[|steps| - 1].Start? then 1 else 0
  }

  /** The publications that went through, in order. */
  function Publications(steps: seq<Step>): seq<Step> {
    if steps == [] then []
    else
      var last := steps[|steps| - 1];
      Publications(steps[..|steps| - 1]) + if last.Publish? && last.ok then [last] else []
  }

  /** What broadcast b looks like to a client, with a given time label. */
  function Looks(b: Step, time: string): Outgoing
    requires b.Begin?
  {
    if b.system then System(b.name + " " + b.text) else Public(b.name, b.avatar, b.text, time)
  }

  ghost predicate EntryIs(e: Entry, publish: Step, begins: seq<Step>) {
    && publish.Publish? && e.call == publish.call < |begins| && begins[e.call].Begin?
    && RelayFrame(e) == Frame(e.call, begins[e.call].server, Looks(begins[e.call], publish.time))
  }

  /** The log is the publications in order; what is relayed of each is the broadcast and its time label. */
  lemma {:induction false} LogIsPublications(steps: seq<Step>)
    requires IsRun(steps)
    ensures |After(steps).log| == |Publications(steps)|
    ensures forall p :: 0 <= p < |Publications(steps)| ==>
              EntryIs(After(steps).log[p], Publications(steps)[p], Begins(steps))
  {
    if steps != [] {
      var past, last := steps[..|steps| - 1], steps[|steps| - 1];
      LogIsPublications(past);
      CallsAreBegun(past);
      StepKeepsLog(After(past), last);
      if last.Publish? && last.ok {
        PublishedEntry(After(past), last, Begins(past));
      }
    }
  }

  lemma StepKeepsLog(st: State, step: Step)
    requires Enabled(st, step)
    ensures if step.Publish? && step.ok then |Apply(st, step).log| == |st.log| + 1 && st.log <= Apply(st, step).log
            else Apply(st, step).log == st.log
  {
  }

  lemma PublishedEntry(st: State, step: Step, begins: seq<Step>)
    requires Enabled(st, step) && step.Publish? && step.ok && |st.calls| == |begins|
    requires forall c :: 0 <= c < |begins| ==> CallOf(st.calls[c], begins[c])
    ensures EntryIs(Apply(st, step).log[|st.log|], step, begins)
  {
    assert CallOf(st.calls[step.call], begins[step.call]);
  }

  /** How many broadcasts had been published when server s started. */
  function JoinedAfter(steps: seq<Step>, s: nat): nat {
    if steps == [] then 0
    else
      var past := steps[..|steps| - 1];
      if steps[|steps| - 1].Start? && Starts(past) == s then |Publications(past)| else JoinedAfter(past, s)
  }

  /** A server relays what is published after it started, and the log is as long as the run says. */
  lemma {:induction false} SubscriptionStartsNow(steps: seq<Step>)
    requires IsRun(steps)
    ensures |After(steps).log| == |Publications(steps)| && |After(steps).servers| == Starts(steps)
    ensures forall s :: 0 <= s < Starts(steps) ==> After(steps).servers[s].joined == JoinedAfter(steps, s)
  {
    if steps != [] {
      SubscriptionStartsNow(steps[..|steps| - 1]);
      StepKeepsJoined(After(steps[..|steps| - 1]), steps[|steps| - 1]);
    }
  }

  lemma StepKeepsJoined(st: State, step: Step)
    requires Enabled(st, step)
    ensures var st' := Apply(st, step);
            && |st'.log| == |st.log| + (if step.Publish? && step.ok then 1 else 0)
            && |st'.servers| == |st.servers| + (if step.Start? then 1 else 0)
            && (forall s :: 0 <= s < |st.servers| ==> st'.servers[s].joined == st.servers[s].joined)
            && (step.Start? ==> st'.servers[|st.servers|].joined == |st.log|)
  {
  }
}
