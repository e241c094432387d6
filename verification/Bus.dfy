/**
 Public broadcasts across servers: broadcastPublic, startBusReceiver and deliverBusMessage of
 internal/server/server.go over the bus of internal/server/redis_bus.go.

 The bus is an ordered log; each server reads it from the point where it subscribed.  Any number of
 broadcasts and receivers interleave freely, step by step.  Frames and log
 entries carry the number of the broadcast call they come from; no step looks at it.

 A fan-out holds wsLock for reading only.  It is therefore not one step but a beginning, one write per
 client in any order, and an end, and several may be under way at once on the same server; only
 connecting and disconnecting, which take the lock for writing, wait until there is none.  What the
 clients get is the subject of module BusClients.
 */
module Bus {
  import opened Common

  datatype BusMessage =
    BusMessage(originID: string, system: bool, from: string, avatar: string, content: string, time: string)

  /** What is written to a WebSocket client. */
  datatype Outgoing =
    | Public(from: string, avatar: string, content: string, time: string)
    | System(content: string)

  datatype Phase = Started | Showing | Shown | Done(published: bool)

  /** A call of broadcastPublic on server origin; text is already sanitised. */
  datatype Call = Call(origin: nat, name: string, text: string, avatar: string, system: bool, phase: Phase)

  datatype Entry = Entry(call: nat, origin: nat, msg: BusMessage)

  datatype Frame = Frame(call: nat, origin: nat, out: Outgoing)

  /** A WebSocket client: how many fan-outs preceded it, and what it has been offered since. */
  datatype Client = Client(since: nat, offered: seq<Frame>)

  /**
   The receiver has read the log up to cursor; it holds an entry it has read, or relays one.  shown are
   the fan-outs begun so far; active has, for each one under way, the clients still to be written to.
   */
  datatype Server =
    Server(id: string, joined: nat, cursor: nat, held: Option<Entry>, relaying: Option<Entry>, shown: seq<Frame>,
           active: map<nat, set<nat>>, clients: map<nat, Client>)

  datatype State = State(servers: seq<Server>, calls: seq<Call>, log: seq<Entry>)

  // ----- Frames and bus messages

  /** What the origin writes to its own clients. */
  function LocalFrame(c: Call, time: string): Outgoing {
    if c.system then System(c.name + " " + c.text) else Public(c.name, c.avatar, c.text, time)
  }

  function Publication(c: Call, id: string, time: string): BusMessage {
    if c.system then BusMessage(id, true, c.name, "", c.name + " " + c.text, "")
    else BusMessage(id, false, c.name, c.avatar, c.text, time)
  }

  /** What a receiver writes to its clients. */
  function RelayedFrame(m: BusMessage): Outgoing {
    if m.system then System(m.content) else Public(m.from, m.avatar, m.content, m.time)
  }

  /** The same message; only the clock label may differ. */
  predicate SameText(a: Outgoing, b: Outgoing) {
    if a.System? then a == b
    else b.Public? && a.from == b.from && a.avatar == b.avatar && a.content == b.content
  }

  // ----- Steps

  datatype Step =
    | Start(id: string)
    | Connect(server: nat, client: nat)
    | Disconnect(server: nat, client: nat)
    | Begin(server: nat, name: string, text: string, avatar: string, system: bool)
    | Show(call: nat)
    | Publish(call: nat, time: string, ok: bool)
    | Receive(server: nat)
    | Skip(server: nat)
    | Deliver(server: nat)
    | Write(server: nat, call: nat, client: nat, time: string)
    | Finish(server: nat, call: nat)

  predicate Enabled(st: State, step: Step) {
    match step
    case Start(id) => forall s :: 0 <= s < |st.servers| ==> st.servers[s].id != id
    case Connect(s, k) => s < |st.servers| && k !in st.servers[s].clients && st.servers[s].active == map[]
    case Disconnect(s, k) => s < |st.servers| && k in st.servers[s].clients && st.servers[s].active == map[]
    case Begin(s, _, _, _, _) => s < |st.servers|
    case Show(c) => c < |st.calls| && st.calls[c].phase.Started? && st.calls[c].origin < |st.servers|
    case Publish(c, _, _) => c < |st.calls| && st.calls[c].phase.Shown? && st.calls[c].origin < |st.servers|
    case Receive(s) =>
      && s < |st.servers| && st.servers[s].held.None? && st.servers[s].relaying.None?
      && st.servers[s].cursor < |st.log|
    case Skip(s) =>
      s < |st.servers| && st.servers[s].held.Some? && st.servers[s].held.value.msg.originID == st.servers[s].id
    case Deliver(s) =>
      s < |st.servers| && st.servers[s].held.Some? && st.servers[s].held.value.msg.originID != st.servers[s].id
    case Write(s, c, k, _) =>
      && s < |st.servers| && c < |st.calls|
      && c in st.servers[s].active && k in st.servers[s].active[c] && k in st.servers[s].clients
    case Finish(s, c) =>
      s < |st.servers| && c < |st.calls| && c in st.servers[s].active && st.servers[s].active[c] == {}
  }

  /** Begin a fan-out: every client is still to be written to. */
  function FanOut(sv: Server, f: Frame): Server {
    sv.(shown := sv.shown + [f], active := sv.active[f.call := sv.clients.Keys])
  }

  function Written(sv: Server, k: nat, f: Frame): Server
    requires f.call in sv.active && k in sv.clients
  {
    sv.(active := sv.active[f.call := sv.active[f.call] - {k}],
        clients := sv.clients[k := Client(sv.clients[k].since, sv.clients[k].offered + [f])])
  }

  function Finished(sv: Server, c: nat): Server {
    sv.(active := sv.active - {c})
  }

  function RelayFrame(e: Entry): Frame {
    Frame(e.call, e.origin, RelayedFrame(e.msg))
  }

  predicate Relaying(sv: Server, c: nat) {
    sv.relaying.Some? && sv.relaying.value.call == c
  }

  /** What a write of fan-out c puts into a client's queue: a local frame gets its time label here. */
  function FrameOf(st: State, s: nat, c: nat, time: string): Frame
    requires s < |st.servers| && c < |st.calls|
  {
    if Relaying(st.servers[s], c) then RelayFrame(st.servers[s].relaying.value)
    else Frame(c, s, LocalFrame(st.calls[c], time))
  }

  function WithServer(st: State, s: nat, sv: Server): State
    requires s < |st.servers|
  {
    st.(servers := st.servers[s := sv])
  }

  /** The receiver takes the next entry of the log. */
  function Received(sv: Server, log: seq<Entry>): Server
    requires sv.cursor < |log|
  {
    sv.(cursor := sv.cursor + 1, held := Some(log[sv.cursor]))
  }

  function Apply(st: State, step: Step): (st': State)
    requires Enabled(st, step)
    ensures |st.servers| <= |st'.servers|
  {
    match step
    case Start(id) => st.(servers := st.servers + [Server(id, |st.log|, |st.log|, None, None, [], map[], map[])])
    case Connect(s, k) =>
      var sv := st.servers[s];
      WithServer(st, s, sv.(clients := sv.clients[k := Client(|sv.shown|, [])]))
    case Disconnect(s, k) =>
      var sv := st.servers[s];
      WithServer(st, s, sv.(clients := sv.clients - {k}))
    case Begin(s, name, text, avatar, system) =>
      st.(calls := st.calls + [Call(s, name, text, avatar, system, Started)])
    case Show(c) =>
      var call := st.calls[c];
      WithServer(st, call.origin, FanOut(st.servers[call.origin], Frame(c, call.origin, LocalFrame(call, ""))))
        .(calls := st.calls[c := call.(phase := Showing)])
    case Publish(c, time, ok) =>
      var call := st.calls[c];
      var entry := Entry(c, call.origin, Publication(call, st.servers[call.origin].id, time));
      st.(calls := st.calls[c := call.(phase := Done(ok))], log := if ok then st.log + [entry] else st.log)
    case Receive(s) => WithServer(st, s, Received(st.servers[s], st.log))
    case Skip(s) => WithServer(st, s, st.servers[s].(held := None))
    case Deliver(s) =>
      var sv := st.servers[s];
      var e := sv.held.value;
      WithServer(st, s, FanOut(sv, RelayFrame(e)).(held := None, relaying := Some(e)))
    case Write(s, c, k, time) => WithServer(st, s, Written(st.servers[s], k, FrameOf(st, s, c, time)))
    case Finish(s, c) =>
      var sv := st.servers[s];
      if Relaying(sv, c) then WithServer(st, s, Finished(sv, c).(relaying := None))
      else
        WithServer(st, s, Finished(sv, c))
        .(calls := st.calls[c := st.calls[c].(phase := Shown)])
  }

  const INIT := State([], [], [])

  predicate IsRun(steps: seq<Step>)
    decreases |steps|, 0
  {
    steps == [] || (IsRun(steps[..|steps| - 1]) && Enabled(After(steps[..|steps| - 1]), steps[|steps| - 1]))
  }

  function After(steps: seq<Step>): State
    requires IsRun(steps)
    decreases |steps|, 1
  {
    if steps == [] then INIT else Apply(After(steps[..|steps| - 1]), steps[|steps| - 1])
  }

  // ----- Invariant

  function Times(frames: seq<Frame>, c: nat): nat {
    if frames == [] then 0
    else Times(frames[..|frames| - 1], c) + if frames[|frames| - 1].call == c then 1 else 0
  }

  predicate Logged(log: seq<Entry>, c: nat, lo: nat, hi: int) {
    exists p :: lo <= p < hi && p < |log| && log[p].call == c
  }

  function Published(calls: seq<Call>): nat {
    if calls == [] then 0
    else Published(calls[..|calls| - 1]) + if calls[|calls| - 1].phase == Done(true) then 1 else 0
  }

  /** How far the receiver of a server has dealt with the log. */
  function Handled(sv: Server): int {
    sv.cursor - if sv.held.Some? then 1 else 0
  }

  /** The frames of other servers' broadcasts, in order. */
  function Foreign(frames: seq<Frame>, s: nat): seq<Frame> {
    if frames == [] then []
    else
      var rest := Foreign(frames[..|frames| - 1], s);
      if frames[|frames| - 1].origin == s then rest else rest + [frames[|frames| - 1]]
  }

  /** What a faithful relay of log[lo..hi] to server s looks like. */
  function Relay(log: seq<Entry>, s: nat, lo: nat, hi: nat): seq<Frame>
    requires lo <= hi <= |log|
    decreases hi
  {
    if lo == hi then []
    else
      var e := log[hi - 1];
      var rest := Relay(log, s, lo, hi - 1);
      if e.origin == s then rest else rest + [RelayFrame(e)]
  }

  ghost predicate DistinctIds(servers: seq<Server>) {
    forall s, t :: 0 <= s < t < |servers| ==> servers[s].id != servers[t].id
  }

  ghost predicate EntryOk(e: Entry, calls: seq<Call>, servers: seq<Server>) {
    && e.call < |calls| && calls[e.call].origin == e.origin < |servers|
    && calls[e.call].phase == Done(true)
    && e.msg.originID == servers[e.origin].id
    && SameText(LocalFrame(calls[e.call], ""), RelayedFrame(e.msg))
  }

  ghost predicate LogOk(st: State) {
    && (forall c :: 0 <= c < |st.calls| ==> st.calls[c].origin < |st.servers|)
    && (forall p :: 0 <= p < |st.log| ==> EntryOk(st.log[p], st.calls, st.servers))
    && (forall p, q :: 0 <= p < q < |st.log| ==> st.log[p].call != st.log[q].call)
    && (forall c :: 0 <= c < |st.calls| && st.calls[c].phase == Done(true) ==> Logged(st.log, c, 0, |st.log|))
    && |st.log| == Published(st.calls)
  }

  /** How often server s, having handled the log up to Handled, has fanned out call c. */
  ghost predicate CountOk(sv: Server, s: nat, calls: seq<Call>, log: seq<Entry>, c: nat)
    requires c < |calls|
  {
    Times(sv.shown, c) ==
    if calls[c].origin == s then (if calls[c].phase.Started? then 0 else 1)
    else (if Logged(log, c, sv.joined, Handled(sv)) then 1 else 0)
  }

  ghost predicate ReaderOk(sv: Server, log: seq<Entry>) {
    && sv.joined <= Handled(sv) <= sv.cursor <= |log|
    && (sv.held.Some? ==> sv.held.value == log[sv.cursor - 1])
    && (sv.relaying.Some? ==> sv.held.None? && sv.joined < sv.cursor && sv.relaying.value == log[sv.cursor - 1])
  }

  /** A fan-out under way is the receiver's or that of a call in its showing phase. */
  ghost predicate ActiveOk(sv: Server, s: nat, calls: seq<Call>) {
    && (forall c :: c in sv.active ==>
          && c < |calls| && sv.active[c] <= sv.clients.Keys
          && (Relaying(sv, c) || (calls[c].origin == s && calls[c].phase.Showing?)))
    && (sv.relaying.Some? ==>
          && sv.relaying.value.call in sv.active
          && calls[sv.relaying.value.call].origin == sv.relaying.value.origin != s)
  }

  ghost predicate FramesOk(sv: Server, calls: seq<Call>) {
    forall i :: 0 <= i < |sv.shown| ==>
      && sv.shown[i].call < |calls| && sv.shown[i].origin == calls[sv.shown[i].call].origin
      && SameText(LocalFrame(calls[sv.shown[i].call], ""), sv.shown[i].out)
  }

  ghost predicate ServerOk(sv: Server, s: nat, calls: seq<Call>, log: seq<Entry>) {
    && ReaderOk(sv, log) && ActiveOk(sv, s, calls) && FramesOk(sv, calls)
    && (forall c :: 0 <= c < |calls| ==> CountOk(sv, s, calls, log, c))
    && Foreign(sv.shown, s) == Relay(log, s, sv.joined, Handled(sv))
  }

  ghost predicate Inv(st: State) {
    && DistinctIds(st.servers) && LogOk(st)
    && forall s :: 0 <= s < |st.servers| ==> ServerOk(st.servers[s], s, st.calls, st.log)
  }

  // ----- Helpers

  lemma {:induction false} TimesOfUnknown(frames: seq<Frame>, c: nat)
    requires forall i :: 0 <= i < |frames| ==> frames[i].call != c
    ensures Times(frames, c) == 0
  {
    if frames != [] {
      TimesOfUnknown(frames[..|frames| - 1], c);
    }
  }

  lemma {:induction false} RelayOfPrefix(log: seq<Entry>, longer: seq<Entry>, s: nat, lo: nat, hi: nat)
    requires lo <= hi <= |log| && log <= longer
    ensures Relay(longer, s, lo, hi) == Relay(log, s, lo, hi)
    decreases hi
  {
    if lo < hi {
      RelayOfPrefix(log, longer, s, lo, hi - 1);
    }
  }

  lemma {:induction false} PublishedAt(calls: seq<Call>, c: nat, phase: Phase)
    requires c < |calls| && calls[c].phase != Done(true)
    ensures Published(calls[c := calls[c].(phase := phase)])
         == Published(calls) + if phase == Done(true) then 1 else 0
  {
    var after := calls[c := calls[c].(phase := phase)];
    if c < |calls| - 1 {
      PublishedAt(calls[..|calls| - 1], c, phase);
      assert after[..|calls| - 1] == calls[..|calls| - 1][c := calls[c].(phase := phase)];
    } else {
      assert after[..|calls| - 1] == calls[..|calls| - 1];
    }
  }

  lemma {:induction false} PublishedAtMost(calls: seq<Call>)
    ensures Published(calls) <= |calls|
  {
    if calls != [] {
      PublishedAtMost(calls[..|calls| - 1]);
    }
  }

  /** Calls only move on, new ones have just begun, and the log only grows. */
  ghost predicate Grows(s: nat, calls: seq<Call>, calls': seq<Call>, log: seq<Entry>, log': seq<Entry>) {
    && |calls| <= |calls'| && log <= log'
    && (forall c :: 0 <= c < |calls| ==>
          && calls'[c] == calls[c].(phase := calls'[c].phase)
          && (calls[c].origin == s ==>
                && calls'[c].phase.Started? == calls[c].phase.Started?
                && calls'[c].phase.Showing? == calls[c].phase.Showing?))
    && (forall c :: |calls| <= c < |calls'| ==> calls'[c].phase.Started?)
    && (forall p :: 0 <= p < |log| ==> log[p].call < |calls|)
  }

  /** A server that takes no part in a step stays as the invariant wants it. */
  lemma Undisturbed(sv: Server, s: nat, calls: seq<Call>, calls': seq<Call>, log: seq<Entry>, log': seq<Entry>)
    requires ServerOk(sv, s, calls, log) && Grows(s, calls, calls', log, log')
    ensures ServerOk(sv, s, calls', log')
  {
    RelayOfPrefix(log, log', s, sv.joined, Handled(sv));
    forall c | 0 <= c < |calls'|
      ensures CountOk(sv, s, calls', log', c)
    {
      UndisturbedCount(sv, s, calls, calls', log, log', c);
    }
  }

  lemma UndisturbedCount(sv: Server, s: nat, calls: seq<Call>, calls': seq<Call>,
                         log: seq<Entry>, log': seq<Entry>, c: nat)
    requires ReaderOk(sv, log) && FramesOk(sv, calls) && Grows(s, calls, calls', log, log')
    requires forall c :: 0 <= c < |calls| ==> CountOk(sv, s, calls, log, c)
    requires c < |calls'|
    ensures CountOk(sv, s, calls', log', c)
  {
    var h := Handled(sv);
    assert Logged(log', c, sv.joined, h) <==> Logged(log, c, sv.joined, h) by {
      assert forall p :: 0 <= p < h ==> log'[p] == log[p];
    }
    if c >= |calls| {
      TimesOfUnknown(sv.shown, c);
    } else {
      assert CountOk(sv, s, calls, log, c);
    }
  }

  lemma Appended(frames: seq<Frame>, f: Frame, s: nat)
    ensures Foreign(frames + [f], s) == Foreign(frames, s) + if f.origin == s then [] else [f]
    ensures forall c: nat :: Times(frames + [f], c) == Times(frames, c) + if f.call == c then 1 else 0
  {
    assert (frames + [f])[..|frames|] == frames;
  }

  // ----- Each step keeps the invariant

  lemma StartKeepsInv(st: State, id: string)
    requires Inv(st) && Enabled(st, Start(id))
    ensures Inv(Apply(st, Start(id)))
  {
    var n := |st.servers|;
    var st' := Apply(st, Start(id));
    forall p | 0 <= p < |st.log|
      ensures EntryOk(st.log[p], st.calls, st'.servers)
    {
      assert EntryOk(st.log[p], st.calls, st.servers);
    }
    assert ServerOk(st'.servers[n], n, st.calls, st.log) by {
      assert forall c :: 0 <= c < |st.calls| ==> CountOk(st'.servers[n], n, st.calls, st.log, c);
    }
  }

  lemma BeginKeepsEntries(st: State, call: Call)
    requires LogOk(st)
    ensures forall p :: 0 <= p < |st.log| ==> EntryOk(st.log[p], st.calls + [call], st.servers)
  {
    forall p | 0 <= p < |st.log|
      ensures EntryOk(st.log[p], st.calls + [call], st.servers)
    {
      assert EntryOk(st.log[p], st.calls, st.servers);
    }
  }

  lemma LogOkAfterBegin(st: State, step: Step)
    requires LogOk(st) && step.Begin? && Enabled(st, step)
    ensures LogOk(Apply(st, step))
  {
    var call := Call(step.server, step.name, step.text, step.avatar, step.system, Started);
    BeginKeepsEntries(st, call);
    assert (st.calls + [call])[..|st.calls|] == st.calls;
  }

  lemma BeginGrows(st: State, step: Step, s: nat)
    requires LogOk(st) && step.Begin? && Enabled(st, step)
    ensures Grows(s, st.calls, Apply(st, step).calls, st.log, st.log)
  {
    assert forall p :: 0 <= p < |st.log| ==> EntryOk(st.log[p], st.calls, st.servers);
  }

  lemma BeginKeepsInv(st: State, step: Step)
    requires Inv(st) && step.Begin? && Enabled(st, step)
    ensures Inv(Apply(st, step))
  {
    var st' := Apply(st, step);
    LogOkAfterBegin(st, step);
    forall s | 0 <= s < |st.servers|
      ensures ServerOk(st.servers[s], s, st'.calls, st.log)
    {
      BeginGrows(st, step, s);
      Undisturbed(st.servers[s], s, st.calls, st'.calls, st.log, st.log);
    }
  }

  /** Replacing the one server that acted, with the calls and the log unchanged. */
  lemma OneServer(st: State, s: nat, sv: Server)
    requires Inv(st) && s < |st.servers| && sv.id == st.servers[s].id
    requires ServerOk(sv, s, st.calls, st.log)
    ensures Inv(WithServer(st, s, sv))
  {
    var st' := WithServer(st, s, sv);
    assert forall t :: 0 <= t < |st.servers| ==> st'.servers[t].id == st.servers[t].id;
    forall p | 0 <= p < |st.log|
      ensures EntryOk(st.log[p], st.calls, st'.servers)
    {
      assert EntryOk(st.log[p], st.calls, st.servers);
    }
  }

  /** A server that has shown and handled the same as before. */
  lemma SameHistory(sv: Server, sv': Server, s: nat, calls: seq<Call>, log: seq<Entry>)
    requires ServerOk(sv, s, calls, log) && ReaderOk(sv', log) && ActiveOk(sv', s, calls)
    requires sv'.shown == sv.shown && sv'.joined == sv.joined && Handled(sv') == Handled(sv)
    ensures ServerOk(sv', s, calls, log)
  {
    forall c | 0 <= c < |calls|
      ensures CountOk(sv', s, calls, log, c)
    {
      assert CountOk(sv, s, calls, log, c);
    }
  }

  /** Only the fan-outs under way and the clients differ. */
  ghost predicate SameReader(sv: Server, sv': Server) {
    && sv'.id == sv.id && sv'.joined == sv.joined && sv'.cursor == sv.cursor && sv'.held == sv.held
    && sv'.shown == sv.shown && (sv'.relaying == sv.relaying || sv'.relaying.None?)
  }

  lemma ClientChangeKeepsServer(sv: Server, sv': Server, s: nat, calls: seq<Call>, log: seq<Entry>)
    requires ServerOk(sv, s, calls, log) && SameReader(sv, sv') && ActiveOk(sv', s, calls)
    ensures ServerOk(sv', s, calls, log)
  {
    SameHistory(sv, sv', s, calls, log);
  }

  /** Connecting, disconnecting, writing and ending a relay leave the history as it is. */
  lemma ClientChange(st: State, s: nat, sv: Server)
    requires Inv(st) && s < |st.servers| && SameReader(st.servers[s], sv) && ActiveOk(sv, s, st.calls)
    ensures Inv(WithServer(st, s, sv))
  {
    ClientChangeKeepsServer(st.servers[s], sv, s, st.calls, st.log);
    OneServer(st, s, sv);
  }

  lemma ConnectKeepsInv(st: State, step: Step)
    requires Inv(st) && (step.Connect? || step.Disconnect?) && Enabled(st, step)
    ensures Inv(Apply(st, step))
  {
    var s := step.server;
    assert ServerOk(st.servers[s], s, st.calls, st.log);
    ClientChange(st, s, Apply(st, step).servers[s]);
  }

  lemma WriteKeepsActive(sv: Server, s: nat, calls: seq<Call>, k: nat, f: Frame)
    requires ActiveOk(sv, s, calls) && f.call in sv.active && k in sv.clients
    ensures ActiveOk(Written(sv, k, f), s, calls)
  {
  }

  lemma WriteKeepsInv(st: State, step: Step)
    requires Inv(st) && step.Write? && Enabled(st, step)
    ensures Inv(Apply(st, step))
  {
    var s := step.server;
    var f := FrameOf(st, s, step.call, step.time);
    assert ServerOk(st.servers[s], s, st.calls, st.log);
    WriteKeepsActive(st.servers[s], s, st.calls, step.client, f);
    ClientChange(st, s, Written(st.servers[s], step.client, f));
  }

  lemma RelayEndKeepsActive(sv: Server, s: nat, calls: seq<Call>, c: nat)
    requires ActiveOk(sv, s, calls) && Relaying(sv, c)
    ensures ActiveOk(Finished(sv, c).(relaying := None), s, calls)
  {
  }

  lemma RelayEndKeepsInv(st: State, step: Step)
    requires Inv(st) && step.Finish? && Enabled(st, step) && Relaying(st.servers[step.server], step.call)
    ensures Inv(Apply(st, step))
  {
    var s := step.server;
    assert ServerOk(st.servers[s], s, st.calls, st.log);
    RelayEndKeepsActive(st.servers[s], s, st.calls, step.call);
    ClientChange(st, s, Finished(st.servers[s], step.call).(relaying := None));
  }

  /** Replacing the one server that acted, when its step moved a call on. */
  lemma OneServerAndCall(st: State, o: nat, sv: Server, calls': seq<Call>)
    requires Inv(st) && o < |st.servers| && sv.id == st.servers[o].id
    requires LogOk(State(st.servers[o := sv], calls', st.log)) && ServerOk(sv, o, calls', st.log)
    requires forall s :: 0 <= s < |st.servers| && s != o ==> Grows(s, st.calls, calls', st.log, st.log)
    ensures Inv(State(st.servers[o := sv], calls', st.log))
  {
    forall s | 0 <= s < |st.servers| && s != o
      ensures ServerOk(st.servers[s], s, calls', st.log)
    {
      Undisturbed(st.servers[s], s, st.calls, calls', st.log, st.log);
    }
  }

  /** Another server's call moving on is growth. */
  lemma PhaseGrows(st: State, c: nat, phase: Phase, s: nat)
    requires LogOk(st) && c < |st.calls| && st.calls[c].origin != s
    ensures Grows(s, st.calls, st.calls[c := st.calls[c].(phase := phase)], st.log, st.log)
  {
    assert forall p :: 0 <= p < |st.log| ==> EntryOk(st.log[p], st.calls, st.servers);
  }

  lemma ReceiveKeepsServer(sv: Server, s: nat, calls: seq<Call>, log: seq<Entry>)
    requires ServerOk(sv, s, calls, log) && sv.held.None? && sv.relaying.None? && sv.cursor < |log|
    ensures ServerOk(Received(sv, log), s, calls, log)
  {
    SameHistory(sv, Received(sv, log), s, calls, log);
  }

  lemma ReceiveKeepsInv(st: State, step: Step)
    requires Inv(st) && step.Receive? && Enabled(st, step)
    ensures Inv(Apply(st, step))
  {
    ReceiveKeepsServer(st.servers[step.server], step.server, st.calls, st.log);
    OneServer(st, step.server, Received(st.servers[step.server], st.log));
  }

  /** The origin identifier on the wire tells exactly the server's own entries from the rest. */
  lemma OwnIffSameId(e: Entry, s: nat, calls: seq<Call>, servers: seq<Server>)
    requires DistinctIds(servers) && s < |servers| && EntryOk(e, calls, servers)
    ensures e.msg.originID == servers[s].id <==> e.origin == s
  {
  }

  lemma HeldIsOwn(st: State, s: nat)
    requires s < |st.servers| && st.servers[s].held.Some?
    requires DistinctIds(st.servers) && ReaderOk(st.servers[s], st.log)
    requires forall p :: 0 <= p < |st.log| ==> EntryOk(st.log[p], st.calls, st.servers)
    ensures var sv := st.servers[s];
            && 0 < sv.cursor <= |st.log| && sv.held.value == st.log[sv.cursor - 1]
            && EntryOk(sv.held.value, st.calls, st.servers)
            && (sv.held.value.msg.originID == sv.id <==> sv.held.value.origin == s)
  {
    var sv := st.servers[s];
    OwnIffSameId(st.log[sv.cursor - 1], s, st.calls, st.servers);
  }

  /** Handling one more entry adds its call, and no other, to what has been passed. */
  lemma LoggedNext(log: seq<Entry>, lo: nat, hi: nat, c: nat)
    requires lo <= hi < |log|
    ensures Logged(log, c, lo, hi + 1) <==> Logged(log, c, lo, hi) || log[hi].call == c
  {
    if log[hi].call == c {
      assert log[hi].call == c;
    }
  }

  lemma NotYetPassed(log: seq<Entry>, lo: nat, hi: nat)
    requires lo <= hi < |log|
    requires forall p, q :: 0 <= p < q < |log| ==> log[p].call != log[q].call
    ensures !Logged(log, log[hi].call, lo, hi)
  {
  }

  lemma SkipKeepsServer(sv: Server, s: nat, calls: seq<Call>, log: seq<Entry>)
    requires ServerOk(sv, s, calls, log)
    requires sv.held.Some? && sv.held.value.call < |calls| && sv.held.value.origin == s
    requires calls[sv.held.value.call].origin == s
    ensures ServerOk(sv.(held := None), s, calls, log)
  {
    forall c | 0 <= c < |calls|
      ensures CountOk(sv.(held := None), s, calls, log, c)
    {
      assert CountOk(sv, s, calls, log, c);
      LoggedNext(log, sv.joined, Handled(sv), c);
    }
  }

  lemma SkipKeepsInv(st: State, step: Step)
    requires Inv(st) && step.Skip? && Enabled(st, step)
    ensures Inv(Apply(st, step))
  {
    var sv := st.servers[step.server];
    HeldIsOwn(st, step.server);
    SkipKeepsServer(sv, step.server, st.calls, st.log);
    OneServer(st, step.server, sv.(held := None));
  }

  lemma DeliverKeepsCount(sv: Server, s: nat, calls: seq<Call>, log: seq<Entry>, f: Frame, c: nat)
    requires c < |calls| && CountOk(sv, s, calls, log, c) && ReaderOk(sv, log)
    requires sv.held.Some? && f.call == sv.held.value.call < |calls| && calls[f.call].origin != s
    requires forall p, q :: 0 <= p < q < |log| ==> log[p].call != log[q].call
    ensures CountOk(FanOut(sv, f).(held := None, relaying := sv.held), s, calls, log, c)
  {
    var sv' := FanOut(sv, f).(held := None, relaying := sv.held);
    var h := Handled(sv);
    assert Handled(sv') == h + 1 && log[h].call == f.call;
    Appended(sv.shown, f, s);
    assert Times(sv'.shown, c) == Times(sv.shown, c) + if f.call == c then 1 else 0;
    LoggedNext(log, sv.joined, h, c);
    if c == f.call {
      NotYetPassed(log, sv.joined, h);
    }
  }

  lemma DeliverKeepsServer(sv: Server, s: nat, calls: seq<Call>, log: seq<Entry>, servers: seq<Server>)
    requires ServerOk(sv, s, calls, log) && sv.held.Some? && sv.held.value.origin != s
    requires EntryOk(sv.held.value, calls, servers)
    requires forall p, q :: 0 <= p < q < |log| ==> log[p].call != log[q].call
    ensures var e := sv.held.value;
            ServerOk(FanOut(sv, RelayFrame(e)).(held := None, relaying := Some(e)), s, calls, log)
  {
    var e := sv.held.value;
    var f := RelayFrame(e);
    Appended(sv.shown, f, s);
    forall c | 0 <= c < |calls|
      ensures CountOk(FanOut(sv, f).(held := None, relaying := Some(e)), s, calls, log, c)
    {
      assert CountOk(sv, s, calls, log, c);
      DeliverKeepsCount(sv, s, calls, log, f, c);
    }
  }

  lemma DeliverKeepsInv(st: State, step: Step)
    requires Inv(st) && step.Deliver? && Enabled(st, step)
    ensures Inv(Apply(st, step))
  {
    var sv := st.servers[step.server];
    HeldIsOwn(st, step.server);
    DeliverKeepsServer(sv, step.server, st.calls, st.log, st.servers);
    var e := sv.held.value;
    OneServer(st, step.server, FanOut(sv, RelayFrame(e)).(held := None, relaying := Some(e)));
  }

  lemma ShowKeepsCount(sv: Server, o: nat, calls: seq<Call>, log: seq<Entry>, f: Frame, c: nat)
    requires c < |calls| && CountOk(sv, o, calls, log, c)
    requires f.call < |calls| && calls[f.call].phase.Started? && calls[f.call].origin == o
    ensures CountOk(FanOut(sv, f), o, calls[f.call := calls[f.call].(phase := Showing)], log, c)
  {
    Appended(sv.shown, f, o);
  }

  lemma ShowKeepsFrames(sv: Server, calls: seq<Call>, f: Frame)
    requires FramesOk(sv, calls) && f.call < |calls| && f.origin == calls[f.call].origin
    requires f.out == LocalFrame(calls[f.call], "")
    ensures FramesOk(FanOut(sv, f), calls[f.call := calls[f.call].(phase := Showing)])
  {
  }

  lemma ShowKeepsServer(sv: Server, o: nat, calls: seq<Call>, log: seq<Entry>, i: nat)
    requires ServerOk(sv, o, calls, log)
    requires i < |calls| && calls[i].phase.Started? && calls[i].origin == o
    ensures ServerOk(FanOut(sv, Frame(i, o, LocalFrame(calls[i], ""))), o,
                     calls[i := calls[i].(phase := Showing)], log)
  {
    var f := Frame(i, o, LocalFrame(calls[i], ""));
    Appended(sv.shown, f, o);
    ShowKeepsFrames(sv, calls, f);
    var calls' := calls[i := calls[i].(phase := Showing)];
    forall c | 0 <= c < |calls'|
      ensures CountOk(FanOut(sv, f), o, calls', log, c)
    {
      assert CountOk(sv, o, calls, log, c);
      ShowKeepsCount(sv, o, calls, log, f, c);
    }
  }

  lemma LogOkAfterShow(st: State, step: Step)
    requires LogOk(st) && step.Show? && Enabled(st, step)
    ensures LogOk(Apply(st, step))
  {
    var st' := Apply(st, step);
    PublishedAt(st.calls, step.call, Showing);
    forall p | 0 <= p < |st.log|
      ensures EntryOk(st.log[p], st'.calls, st'.servers)
    {
      assert EntryOk(st.log[p], st.calls, st.servers);
    }
  }

  lemma ShowKeepsInv(st: State, step: Step)
    requires Inv(st) && step.Show? && Enabled(st, step)
    ensures Inv(Apply(st, step))
  {
    var st' := Apply(st, step);
    var o := st.calls[step.call].origin;
    LogOkAfterShow(st, step);
    assert ServerOk(st'.servers[o], o, st'.calls, st.log) by {
      assert ServerOk(st.servers[o], o, st.calls, st.log);
      ShowKeepsServer(st.servers[o], o, st.calls, st.log, step.call);
    }
    forall s | 0 <= s < |st.servers| && s != o
      ensures Grows(s, st.calls, st'.calls, st.log, st.log)
    {
      PhaseGrows(st, step.call, Showing, s);
    }
    OneServerAndCall(st, o, st'.servers[o], st'.calls);
  }

  lemma FinishKeepsServer(sv: Server, s: nat, calls: seq<Call>, log: seq<Entry>, i: nat)
    requires ServerOk(sv, s, calls, log) && i in sv.active && !Relaying(sv, i)
    ensures ServerOk(Finished(sv, i), s, calls[i := calls[i].(phase := Shown)], log)
  {
    var calls' := calls[i := calls[i].(phase := Shown)];
    forall c | 0 <= c < |calls'|
      ensures CountOk(Finished(sv, i), s, calls', log, c)
    {
      assert CountOk(sv, s, calls, log, c);
    }
  }

  lemma LogOkAfterFinish(st: State, step: Step)
    requires LogOk(st) && step.Finish? && Enabled(st, step) && !Relaying(st.servers[step.server], step.call)
    requires st.calls[step.call].phase.Showing?
    ensures LogOk(Apply(st, step))
  {
    var st' := Apply(st, step);
    PublishedAt(st.calls, step.call, Shown);
    forall p | 0 <= p < |st.log|
      ensures EntryOk(st.log[p], st'.calls, st'.servers)
    {
      assert EntryOk(st.log[p], st.calls, st.servers);
    }
  }

  /** The end of a local fan-out. */
  lemma FinishKeepsInv(st: State, step: Step)
    requires Inv(st) && step.Finish? && Enabled(st, step) && !Relaying(st.servers[step.server], step.call)
    ensures Inv(Apply(st, step))
  {
    var st' := Apply(st, step);
    var o := step.server;
    assert ServerOk(st.servers[o], o, st.calls, st.log);
    LogOkAfterFinish(st, step);
    FinishKeepsServer(st.servers[o], o, st.calls, st.log, step.call);
    forall s | 0 <= s < |st.servers| && s != o
      ensures Grows(s, st.calls, st'.calls, st.log, st.log)
    {
      PhaseGrows(st, step.call, Shown, s);
    }
    OneServerAndCall(st, o, st'.servers[o], st'.calls);
  }

  lemma PublishKeepsEntries(st: State, step: Step)
    requires LogOk(st) && step.Publish? && Enabled(st, step)
    ensures var st' := Apply(st, step);
            && (forall p :: 0 <= p < |st'.log| ==> EntryOk(st'.log[p], st'.calls, st'.servers))
            && (forall p :: 0 <= p < |st.log| ==> st.log[p].call != step.call)
  {
    var st' := Apply(st, step);
    forall p | 0 <= p < |st'.log|
      ensures EntryOk(st'.log[p], st'.calls, st'.servers)
      ensures p < |st.log| ==> st.log[p].call != step.call
    {
      if p < |st.log| {
        assert EntryOk(st.log[p], st.calls, st.servers);
      }
    }
  }

  lemma PublishLogs(st: State, step: Step, c: nat)
    requires LogOk(st) && step.Publish? && Enabled(st, step)
    requires c < |st.calls| && Apply(st, step).calls[c].phase == Done(true)
    ensures Logged(Apply(st, step).log, c, 0, |Apply(st, step).log|)
  {
    var st' := Apply(st, step);
    if c == step.call {
      assert st'.log[|st.log|].call == c;
    } else {
      var p :| 0 <= p < |st.log| && st.log[p].call == c;
      assert st'.log[p].call == c;
    }
  }

  lemma LogOkAfterPublish(st: State, step: Step)
    requires LogOk(st) && step.Publish? && Enabled(st, step)
    ensures LogOk(Apply(st, step))
  {
    var st' := Apply(st, step);
    PublishedAt(st.calls, step.call, Done(step.ok));
    PublishKeepsEntries(st, step);
    forall c | 0 <= c < |st'.calls| && st'.calls[c].phase == Done(true)
      ensures Logged(st'.log, c, 0, |st'.log|)
    {
      PublishLogs(st, step, c);
    }
  }

  lemma PublishGrows(st: State, step: Step, s: nat)
    requires LogOk(st) && step.Publish? && Enabled(st, step)
    ensures Grows(s, st.calls, Apply(st, step).calls, st.log, Apply(st, step).log)
  {
    assert forall p :: 0 <= p < |st.log| ==> EntryOk(st.log[p], st.calls, st.servers);
  }

  lemma PublishKeepsInv(st: State, step: Step)
    requires Inv(st) && step.Publish? && Enabled(st, step)
    ensures Inv(Apply(st, step))
  {
    var st' := Apply(st, step);
    assert DistinctIds(st'.servers) && LogOk(st') by {
      LogOkAfterPublish(st, step);
    }
    forall s | 0 <= s < |st.servers|
      ensures ServerOk(st.servers[s], s, st'.calls, st'.log)
    {
      PublishGrows(st, step, s);
      Undisturbed(st.servers[s], s, st.calls, st'.calls, st.log, st'.log);
    }
  }

  lemma StepKeepsInv(st: State, step: Step)
    requires Inv(st) && Enabled(st, step)
    ensures Inv(Apply(st, step))
  {
    match step
    case Start(id) => StartKeepsInv(st, id);
    case Connect(_, _) => ConnectKeepsInv(st, step);
    case Disconnect(_, _) => ConnectKeepsInv(st, step);
    case Begin(_, _, _, _, _) => BeginKeepsInv(st, step);
    case Show(_) => ShowKeepsInv(st, step);
    case Publish(_, _, _) => PublishKeepsInv(st, step);
    case Receive(_) => ReceiveKeepsInv(st, step);
    case Skip(_) => SkipKeepsInv(st, step);
    case Deliver(_) => DeliverKeepsInv(st, step);
    case Write(_, _, _, _) => WriteKeepsInv(st, step);
    case Finish(s, c) =>
      if Relaying(st.servers[s], c) {
        RelayEndKeepsInv(st, step);
      } else {
        FinishKeepsInv(st, step);
      }
  }

  lemma {:induction false} RunsKeepInv(steps: seq<Step>)
    requires IsRun(steps)
    ensures Inv(After(steps))
  {
    if steps != [] {
      RunsKeepInv(steps[..|steps| - 1]);
      StepKeepsInv(After(steps[..|steps| - 1]), steps[|steps| - 1]);
    }
  }

  // ----- Main results, for every run

  /**
   Exactly once.  The origin fans a broadcast out when it shows it, any other server when it handles the
   broadcast's log entry, and nobody ever does so twice.
   */
  lemma {:induction false} ExactlyOnce(steps: seq<Step>, s: nat, c: nat)
    requires IsRun(steps) && s < |After(steps).servers| && c < |After(steps).calls|
    ensures var st := After(steps); var sv := st.servers[s];
            Times(sv.shown, c) ==
            if st.calls[c].origin == s then (if st.calls[c].phase.Started? then 0 else 1)
            else if Logged(st.log, c, sv.joined, Handled(sv)) then 1 else 0
  {
    RunsKeepInv(steps);
    var st := After(steps);
    assert ServerOk(st.servers[s], s, st.calls, st.log);
    assert CountOk(st.servers[s], s, st.calls, st.log, c);
  }

  /** No loop: relaying never publishes, so the log holds one entry per published call and no more. */
  lemma {:induction false} NoLoop(steps: seq<Step>)
    requires IsRun(steps)
    ensures |After(steps).log| == Published(After(steps).calls) <= |After(steps).calls|
  {
    RunsKeepInv(steps);
    PublishedAtMost(After(steps).calls);
  }

  /** Other servers' broadcasts are shown in log order, from the subscription on, without gaps. */
  lemma {:induction false} RelayIsFaithful(steps: seq<Step>, s: nat)
    requires IsRun(steps) && s < |After(steps).servers|
    ensures var st := After(steps); var sv := st.servers[s];
            && sv.joined <= Handled(sv) <= |st.log|
            && Foreign(sv.shown, s) == Relay(st.log, s, sv.joined, Handled(sv))
  {
    RunsKeepInv(steps);
    var st := After(steps);
    assert ServerOk(st.servers[s], s, st.calls, st.log);
  }

  /** When nothing is left to do, every server that was there from the start has shown every broadcast once. */
  lemma {:induction false} QuietStateIsComplete(steps: seq<Step>, s: nat, c: nat)
    requires IsRun(steps) && s < |After(steps).servers| && c < |After(steps).calls|
    requires After(steps).calls[c].phase == Done(true)
    requires var sv := After(steps).servers[s];
             sv.joined == 0 && sv.held.None? && sv.cursor == |After(steps).log|
    ensures Times(After(steps).servers[s].shown, c) == 1
  {
    RunsKeepInv(steps);
    ExactlyOnce(steps, s, c);
    var st := After(steps);
    assert Logged(st.log, c, 0, |st.log|);
  }
}
