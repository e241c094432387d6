/**
 The polling gateway of cmd/web/main.go: readTCPToChannel fills a bounded channel and waits when it is
 full, handlePoll empties it, and either side stops once the session is closed.  One poll at a time.
 */
module PollGateway {
  import opened Common
  import opened Text

  const CAPACITY := 256
  const BATCH := 20

  /** lost holds the line the reader was waiting to hand over when the session was closed. */
  datatype Session = Session(pending: Option<string>, queue: seq<string>, poll: Option<seq<string>>,
                             responses: seq<seq<string>>, closed: bool, stopped: bool, lost: seq<string>)

  const NEW_SESSION := Session(None, [], None, [], false, false, [])

  datatype Step =
    | Read(line: string)  // the reader gets a line
    | Push                // and hands it over
    | GiveUp              // or sees that the session is closed
    | ReadError
    | Close
    | PollStart
    | PollTake
    | PollEnd

  predicate Enabled(s: Session, step: Step) {
    match step
    case Read(_) => s.pending.None? && !s.stopped
    case Push => s.pending.Some? && |s.queue| < CAPACITY
    case GiveUp => s.pending.Some? && s.closed
    case ReadError => s.pending.None? && !s.stopped
    case Close => true
    case PollStart => s.poll.None?
    case PollTake => s.poll.Some? && |s.poll.value| < BATCH && s.queue != []
    case PollEnd =>
      // closed, a full batch, nothing more to take, or the timer with nothing collected
      s.poll.Some? && (s.closed || |s.poll.value| >= BATCH || s.queue == [] || s.poll.value == [])
  }

  function TrimEnd(line: string): string {
    if line != [] && (line[|line| - 1] == '\n' || line[|line| - 1] == '\r') then TrimEnd(line[..|line| - 1])
    else line
  }

  const LINE_END := {'\n', '\r'}

  lemma {:induction false} TrimEndStrips(line: string)
    ensures StripsTo(line, TrimEnd(line), LINE_END)
  {
    if line != [] && line[|line| - 1] in LINE_END {
      TrimEndStrips(line[..|line| - 1]);
    }
  }

  function Apply(s: Session, step: Step): Session
    requires Enabled(s, step)
  {
    match step
    case Read(line) => if TrimEnd(line) == [] then s else s.(pending := Some(TrimEnd(line)))
    case Push => s.(pending := None, queue := s.queue + [s.pending.value])
    case GiveUp => s.(pending := None, stopped := true, lost := [s.pending.value])
    case ReadError => s.(stopped := true, closed := true)
    case Close => s.(closed := true)
    case PollStart => s.(poll := Some([]))
    case PollTake => s.(poll := Some(s.poll.value + [s.queue[0]]), queue := s.queue[1..])
    case PollEnd => s.(poll := None, responses := s.responses + [s.poll.value])
  }

  predicate IsRun(steps: seq<Step>)
    decreases |steps|, 0
  {
    steps == [] || (IsRun(steps[..|steps| - 1]) && Enabled(After(steps[..|steps| - 1]), steps[|steps| - 1]))
  }

  function After(steps: seq<Step>): Session
    requires IsRun(steps)
    decreases |steps|, 1
  {
    if steps == [] then NEW_SESSION else Apply(After(steps[..|steps| - 1]), steps[|steps| - 1])
  }

  predicate Blank(line: string) {
    forall i :: 0 <= i < |line| ==> line[i] == '\n' || line[i] == '\r'
  }

  /** The lines read that hold anything but line ends, as they came from the connection, in order. */
  function LinesRead(steps: seq<Step>): seq<string> {
    if steps == [] then []
    else
      var last := steps[|steps| - 1];
      LinesRead(steps[..|steps| - 1]) + if last.Read? && !Blank(last.line) then [last.line] else []
  }

  /** The given texts are the first of the given lines, each without its line end. */
  ghost predicate Shows(texts: seq<string>, lines: seq<string>) {
    |texts| <= |lines| && forall i :: 0 <= i < |texts| ==> StripsTo(lines[i], texts[i], {'\n', '\r'})
  }

  function Flatten(responses: seq<seq<string>>): seq<string> {
    if responses == [] then [] else Flatten(responses[..|responses| - 1]) + responses[|responses| - 1]
  }

  function OrEmpty(o: Option<seq<string>>): seq<string> {
    if o.Some? then o.value else []
  }

  function Waiting(s: Session): seq<string> {
    if s.pending.Some? then [s.pending.value] else s.lost
  }

  ghost predicate Bounded(s: Session) {
    && |s.queue| <= CAPACITY
    && (s.poll.Some? ==> |s.poll.value| <= BATCH)
    && (forall i :: 0 <= i < |s.responses| ==> |s.responses[i]| <= BATCH)
    && (s.lost != [] ==> s.closed && s.stopped && s.pending.None? && |s.lost| == 1)
    && (s.stopped ==> s.closed && s.pending.None?)
  }

  lemma {:induction false} GatewayStaysBounded(steps: seq<Step>)
    requires IsRun(steps)
    ensures Bounded(After(steps))
  {
    if steps != [] {
      GatewayStaysBounded(steps[..|steps| - 1]);
    }
  }

  /** Where the lines read have got to, front to back. */
  function Held(s: Session): seq<string> {
    Flatten(s.responses) + (OrEmpty(s.poll) + (s.queue + Waiting(s)))
  }

  lemma ReaderStep(s: Session, step: Step)
    requires Bounded(s) && Enabled(s, step) && (step.Read? || step.Push? || step.GiveUp?)
    ensures Held(Apply(s, step))
         == Held(s) + if step.Read? && TrimEnd(step.line) != [] then [TrimEnd(step.line)] else []
  {
    if step.Push? {
      assert s.queue + Waiting(s) == s.queue + [s.pending.value] + [];
    } else if step.Read? && TrimEnd(step.line) != [] {
      assert Waiting(s) == [];
      assert s.queue + [TrimEnd(step.line)] == s.queue + Waiting(s) + [TrimEnd(step.line)];
    }
  }

  lemma PollStep(s: Session, step: Step)
    requires Bounded(s) && Enabled(s, step) && (step.PollStart? || step.PollTake? || step.PollEnd?)
    ensures Held(Apply(s, step)) == Held(s)
  {
    var s' := Apply(s, step);
    if step.PollTake? {
      assert s.queue == [s.queue[0]] + s.queue[1..];
      assert OrEmpty(s'.poll) + (s'.queue + Waiting(s)) == OrEmpty(s.poll) + (s.queue + Waiting(s));
    } else if step.PollEnd? {
      assert s'.responses[..|s.responses|] == s.responses;
      assert Flatten(s'.responses) == Flatten(s.responses) + s.poll.value;
    }
  }

  lemma HeldStep(s: Session, step: Step)
    requires Bounded(s) && Enabled(s, step)
    ensures Held(Apply(s, step))
         == Held(s) + if step.Read? && TrimEnd(step.line) != [] then [TrimEnd(step.line)] else []
  {
    if step.Read? || step.Push? || step.GiveUp? {
      ReaderStep(s, step);
    } else if step.PollStart? || step.PollTake? || step.PollEnd? {
      PollStep(s, step);
    }
  }

  lemma BlankIffTrimmedAway(line: string)
    ensures TrimEnd(line) == [] <==> Blank(line)
  {
    TrimEndStrips(line);
    assert TrimEnd(line) == line[..|TrimEnd(line)|];
  }

  /**
   Responses, the running poll, the channel and the line being handed over are always all the lines read
   that are not blank, in order and without their line ends; only a line caught by the closing of the
   session never gets further.
   */
  lemma {:induction false} NoLineLost(steps: seq<Step>)
    requires IsRun(steps)
    ensures Shows(Held(After(steps)), LinesRead(steps)) && |Held(After(steps))| == |LinesRead(steps)|
  {
    if steps != [] {
      var past, step := steps[..|steps| - 1], steps[|steps| - 1];
      GatewayStaysBounded(past);
      NoLineLost(past);
      HeldStep(After(past), step);
      if step.Read? {
        TrimEndStrips(step.line);
        BlankIffTrimmedAway(step.line);
      }
    }
  }

  /** So a browser always sees the first of the lines read, at most 20 at a time. */
  lemma {:induction false} ResponsesArePrefix(steps: seq<Step>)
    requires IsRun(steps)
    ensures Shows(Flatten(After(steps).responses), LinesRead(steps))
    ensures forall i :: 0 <= i < |After(steps).responses| ==> |After(steps).responses[i]| <= 20
    ensures !After(steps).closed ==> After(steps).lost == [] && |After(steps).queue| <= 256
  {
    NoLineLost(steps);
    GatewayStaysBounded(steps);
    assert Flatten(After(steps).responses) <= Held(After(steps));
  }

  /** A poll of an open session ends short of 20 lines only when no line is left, or none was there. */
  lemma {:induction false} ShortResponseMeansEmptied(steps: seq<Step>)
    requires IsRun(steps + [PollEnd])
    ensures IsRun(steps) && After(steps + [PollEnd]).responses != []
    ensures var responses := After(steps + [PollEnd]).responses;
            0 < |responses[|responses| - 1]| < 20 && !After(steps).closed ==> After(steps).queue == []
  {
    assert (steps + [PollEnd])[..|steps|] == steps;
  }
}
