/**
 The channel of a TCP client (internal/server/user.go): senders drop a message when the channel is full,
 one writer takes messages out and writes them to the connection.
 */
module ClientQueue {
  import opened Common
  import opened Text

  const CAPACITY := 100

  datatype Client = Client(queue: seq<string>, taken: Option<string>, written: seq<string>)

  const NEW_CLIENT := Client([], None, [])

  /** A send with a default branch: dropped when there is no room. */
  function Offered(c: Client, msg: string): Client {
    if |c.queue| < CAPACITY then c.(queue := c.queue + [msg]) else c
  }

  function TrimNewlines(msg: string): string {
    if msg != [] && msg[|msg| - 1] == '\n' then TrimNewlines(msg[..|msg| - 1]) else msg
  }

  lemma {:induction false} TrimNewlinesStrips(msg: string)
    ensures StripsTo(msg, TrimNewlines(msg), {'\n'})
  {
    if msg != [] && msg[|msg| - 1] == '\n' {
      TrimNewlinesStrips(msg[..|msg| - 1]);
    }
  }

  class User {
    var c: Client

    constructor ()
      ensures c == NEW_CLIENT
    {
      c := NEW_CLIENT;
    }

    method SendMsg(msg: string)
      modifies this
      ensures c == Offered(old(c), TrimNewlines(msg))
      ensures if |old(c).queue| < 100
              then exists text :: StripsTo(msg, text, {'\n'}) && c == old(c).(queue := old(c).queue + [text])
              else c == old(c)
    {
      TrimNewlinesStrips(msg);
      var text := msg;
      while text != [] && text[|text| - 1] == '\n'
        invariant TrimNewlines(text) == TrimNewlines(msg)
        decreases |text|
      {
        text := text[..|text| - 1];
      }
      if |c.queue| < CAPACITY {
        c := c.(queue := c.queue + [text]);
      }
    }
  }

  datatype Step =
    | Send(msg: string)    // SendMsg
    | FanOut(msg: string)  // fanoutTCP
    | Take                 // the writer receives from the channel
    | Write                // and writes to the connection

  predicate Enabled(c: Client, step: Step) {
    match step
    case Take => c.taken.None? && c.queue != []
    case Write => c.taken.Some?
    case _ => true
  }

  function Apply(c: Client, step: Step): Client
    requires Enabled(c, step)
  {
    match step
    case Send(msg) => Offered(c, TrimNewlines(msg))
    case FanOut(msg) => Offered(c, msg)
    case Take => c.(taken := Some(c.queue[0]), queue := c.queue[1..])
    case Write => c.(taken := None, written := c.written + [c.taken.value])
  }

  predicate IsRun(steps: seq<Step>)
    decreases |steps|, 0
  {
    steps == [] || (IsRun(steps[..|steps| - 1]) && Enabled(After(steps[..|steps| - 1]), steps[|steps| - 1]))
  }

  function After(steps: seq<Step>): Client
    requires IsRun(steps)
    decreases |steps|, 1
  {
    if steps == [] then NEW_CLIENT else Apply(After(steps[..|steps| - 1]), steps[|steps| - 1])
  }

  /** The length of the queue, counted from what has gone in and out. */
  function InQueue(steps: seq<Step>): int {
    if steps == [] then 0
    else
      var before := InQueue(steps[..|steps| - 1]);
      match steps[|steps| - 1]
      case Send(_) => if before < 100 then before + 1 else before
      case FanOut(_) => if before < 100 then before + 1 else before
      case Take => before - 1
      case Write => before
  }

  /** The offers that found room or, with room false, those that found none; as the senders made them. */
  function Offers(steps: seq<Step>, room: bool): seq<Step> {
    if steps == [] then []
    else
      var past, last := steps[..|steps| - 1], steps[|steps| - 1];
      Offers(past, room) + if (last.Send? || last.FanOut?) && (InQueue(past) < 100) == room then [last] else []
  }

  /** What a client gets of an offer: the message, which SendMsg strips of the newlines it ends with. */
  ghost predicate Carries(offer: Step, text: string) {
    if offer.Send? then StripsTo(offer.msg, text, {'\n'}) else offer.FanOut? && text == offer.msg
  }

  ghost predicate CarriesAll(offers: seq<Step>, texts: seq<string>) {
    |offers| == |texts| && forall i :: 0 <= i < |texts| ==> Carries(offers[i], texts[i])
  }

  function InHand(c: Client): seq<string> {
    if c.taken.Some? then [c.taken.value] else []
  }

  function Kept(c: Client): seq<string> {
    c.written + (InHand(c) + c.queue)
  }

  lemma OfferKeeps(c: Client, msg: string)
    ensures Kept(Offered(c, msg)) == Kept(c) + if |c.queue| < CAPACITY then [msg] else []
  {
    assert c.written + (InHand(c) + (c.queue + [msg])) == Kept(c) + [msg];
  }

  lemma WriterKeeps(c: Client, step: Step)
    requires (step.Take? || step.Write?) && Enabled(c, step)
    ensures Kept(Apply(c, step)) == Kept(c)
  {
    if step.Take? {
      assert c.queue == [c.queue[0]] + c.queue[1..];
    }
  }

  lemma {:induction false} QueueLength(steps: seq<Step>)
    requires IsRun(steps)
    ensures |After(steps).queue| == InQueue(steps) <= 100
  {
    if steps != [] {
      QueueLength(steps[..|steps| - 1]);
    }
  }

  lemma OfferIsCarried(c: Client, step: Step)
    requires step.Send? || step.FanOut?
    ensures var text := if step.Send? then TrimNewlines(step.msg) else step.msg;
            && Carries(step, text)
            && Kept(Apply(c, step)) == Kept(c) + if |c.queue| < 100 then [text] else []
  {
    TrimNewlinesStrips(step.msg);
    OfferKeeps(c, if step.Send? then TrimNewlines(step.msg) else step.msg);
  }

  /** Written, in the writer's hand and queued are exactly the messages that found room, in order. */
  lemma {:induction false} NothingLostNothingReordered(steps: seq<Step>)
    requires IsRun(steps)
    ensures CarriesAll(Offers(steps, true), Kept(After(steps)))
    ensures |After(steps).queue| == InQueue(steps) <= 100
  {
    QueueLength(steps);
    if steps != [] {
      var past, step := steps[..|steps| - 1], steps[|steps| - 1];
      QueueLength(past);
      NothingLostNothingReordered(past);
      if step.Send? || step.FanOut? {
        OfferIsCarried(After(past), step);
      } else {
        WriterKeeps(After(past), step);
      }
    }
  }

  function OffersMade(steps: seq<Step>): nat {
    if steps == [] then 0
    else
      var last := steps[|steps| - 1];
      OffersMade(steps[..|steps| - 1]) + if last.Send? || last.FanOut? then 1 else 0
  }

  lemma {:induction false} OffersAdd(steps: seq<Step>)
    ensures |Offers(steps, true)| + |Offers(steps, false)| == OffersMade(steps)
  {
    if steps != [] {
      OffersAdd(steps[..|steps| - 1]);
    }
  }

  /** Every message offered is written, in hand, queued or dropped. */
  lemma {:induction false} Conservation(steps: seq<Step>)
    requires IsRun(steps)
    ensures var c := After(steps);
            OffersMade(steps) == |c.written| + |InHand(c)| + |c.queue| + |Offers(steps, false)|
  {
    NothingLostNothingReordered(steps);
    OffersAdd(steps);
  }
}
