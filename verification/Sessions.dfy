/**
 The in-memory session store of internal/server/bus.go.

 Expired sessions disappear lazily: on lookup, or when the cleanup ticker fires.  The store is related
 to the history of operations on a single token, in which nothing is ever forgotten.
 */
module Sessions {
  import opened Common

  datatype Session = Session(username: string, createdAt: int, expiresAt: int) {
    predicate IsExpired(now: int) {
      now > expiresAt
    }
  }

  type Tokens = map<string, Session>

  // ----- Specification of the five operations

  function Created(t: Tokens, token: string, username: string, at: int, ttl: int): Tokens {
    t[token := Session(username, at, at + ttl)]
  }

  function Lookup(t: Tokens, token: string, now: int): Option<string> {
    if token in t && !t[token].IsExpired(now) then Some(t[token].username) else None
  }

  function LookedUp(t: Tokens, token: string, now: int): Tokens {
    if token in t && t[token].IsExpired(now) then t - {token} else t
  }

  function Updated(t: Tokens, token: string, username: string): Tokens {
    if token in t then t[token := t[token].(username := username)] else t
  }

  function Cleaned(t: Tokens, expiredBefore: int): Tokens {
    map k | k in t && !t[k].IsExpired(expiredBefore) :: t[k]
  }

  class MemorySessionStore {
    var tokens: Tokens

    constructor ()
      ensures tokens == map[]
    {
      tokens := map[];
    }

    /** The token comes from the random source, which may fail. */
    method Create(username: string, ttl: int, random: Result<string>, now: int) returns (r: Result<string>)
      modifies this
      ensures r == random
      ensures tokens == if random.Ok? then Created(old(tokens), random.value, username, now, ttl) else old(tokens)
    {
      if random.Err? {
        return random;
      }
      tokens := tokens[random.value := Session(username, now, now + ttl)];
      return random;
    }

    method GetUsername(token: string, now: int) returns (r: Option<string>)
      modifies this
      ensures r == Lookup(old(tokens), token, now)
      ensures tokens == LookedUp(old(tokens), token, now)
      ensures r.None? ==> token !in tokens
    {
      if token !in tokens {
        return None;
      }
      var sess := tokens[token];
      if sess.IsExpired(now) {
        tokens := tokens - {token};
        return None;
      }
      return Some(sess.username);
    }

    method UpdateUsername(token: string, username: string)
      modifies this
      ensures tokens == Updated(old(tokens), token, username)
    {
      if token in tokens {
        tokens := tokens[token := tokens[token].(username := username)];
      }
    }

    method Delete(token: string)
      modifies this
      ensures tokens == old(tokens) - {token}
    {
      tokens := tokens - {token};
    }

    method Cleanup(expiredBefore: int)
      modifies this
      ensures tokens == Cleaned(old(tokens), expiredBefore)
      ensures forall k :: k in tokens ==> expiredBefore <= tokens[k].expiresAt
    {
      var pending := tokens.Keys;
      while pending != {}
        invariant pending <= tokens.Keys <= old(tokens).Keys
        invariant tokens ==
                  map k | k in old(tokens) && (k in pending || !old(tokens)[k].IsExpired(expiredBefore))
                    :: old(tokens)[k]
      {
        var token :| token in pending;
        if expiredBefore > tokens[token].expiresAt {
          tokens := tokens - {token};
        }
        pending := pending - {token};
      }
    }
  }

  // ----- Runs

  datatype Op =
    | Create(token: string, username: string, at: int, ttl: int)
    | Get(token: string)
    | Update(token: string, username: string)
    | Delete(token: string)
    | Cleanup(before: int)

  /** An operation and the clock when it held the lock. */
  datatype Event = Event(op: Op, now: int)

  function Next(t: Tokens, e: Event): Tokens {
    match e.op
    case Create(token, username, at, ttl) => Created(t, token, username, at, ttl)
    case Get(token) => LookedUp(t, token, e.now)
    case Update(token, username) => Updated(t, token, username)
    case Delete(token) => t - {token}
    case Cleanup(before) => Cleaned(t, before)
  }

  function After(events: seq<Event>): Tokens {
    if events == [] then map[] else Next(After(events[..|events| - 1]), events[|events| - 1])
  }

  /** The clock never goes back, and a cleanup uses a time that has already been reached. */
  predicate WellTimed(events: seq<Event>, now: int) {
    && (forall i, j :: 0 <= i < j < |events| ==> events[i].now <= events[j].now)
    && (forall i :: 0 <= i < |events| ==> events[i].now <= now)
    && (forall i :: 0 <= i < |events| && events[i].op.Cleanup? ==> events[i].op.before <= events[i].now)
  }

  // ----- One token's history, with nothing ever forgotten

  datatype Grant = Grant(username: string, until: int)

  function GrantOf(events: seq<Event>, token: string): Option<Grant> {
    if events == [] then None
    else
      var earlier := GrantOf(events[..|events| - 1], token);
      match events[|events| - 1].op
      case Create(t, username, at, ttl) => if t == token then Some(Grant(username, at + ttl)) else earlier
      case Update(t, username) =>
        if t == token && earlier.Some? then Some(Grant(username, earlier.value.until)) else earlier
      case Delete(t) => if t == token then None else earlier
      case _ => earlier
  }

  function Honoured(g: Option<Grant>, now: int): Option<string> {
    if g.Some? && now <= g.value.until then Some(g.value.username) else None
  }

  /** What the store still holds of a token is its grant; what it dropped had run out. */
  lemma {:induction false} StoreHoldsGrants(events: seq<Event>, token: string, now: int)
    requires WellTimed(events, now)
    ensures var t, g := After(events), GrantOf(events, token);
            && (token in t ==> g == Some(Grant(t[token].username, t[token].expiresAt)))
            && (token !in t && g.Some? ==> now > g.value.until)
  {
    if events != [] {
      var last := events[|events| - 1];
      StoreHoldsGrants(events[..|events| - 1], token, last.now);
    }
  }

  /** After any well-timed run, a lookup answers as the full history of its token says. */
  lemma {:induction false} StoreSimulatesHistory(events: seq<Event>, token: string, now: int)
    requires WellTimed(events, now)
    ensures Lookup(After(events), token, now) == Honoured(GrantOf(events, token), now)
  {
    StoreHoldsGrants(events, token, now);
  }

  // ----- The life of one token

  predicate Untouched(events: seq<Event>, token: string) {
    forall i :: 0 <= i < |events| ==>
      !(events[i].op.Create? && events[i].op.token == token)
      && !(events[i].op.Delete? && events[i].op.token == token)
  }

  /** The name given to token by the last update in events, or first when there is none. */
  function LastName(events: seq<Event>, token: string, first: string): string {
    if events == [] then first
    else
      var last := events[|events| - 1].op;
      if last.Update? && last.token == token then last.username
      else LastName(events[..|events| - 1], token, first)
  }

  lemma {:induction false} GrantSurvives(past: seq<Event>, c: Event, later: seq<Event>)
    requires c.op.Create? && Untouched(later, c.op.token)
    ensures GrantOf(past + [c] + later, c.op.token)
         == Some(Grant(LastName(later, c.op.token, c.op.username), c.op.at + c.op.ttl))
  {
    var all := past + [c] + later;
    if later == [] {
      assert all == past + [c];
    } else {
      GrantSurvives(past, c, later[..|later| - 1]);
      assert all[..|all| - 1] == past + [c] + later[..|later| - 1];
    }
  }

  /**
   A token that is neither created again nor deleted is accepted exactly until its creation time plus
   ttl, whatever else happens in between, and then under its latest name: updates never move the expiry.
   */
  lemma {:induction false} AcceptedExactlyUntilExpiry(past: seq<Event>, c: Event, later: seq<Event>, now: int)
    requires c.op.Create? && Untouched(later, c.op.token)
    requires WellTimed(past + [c] + later, now)
    ensures Lookup(After(past + [c] + later), c.op.token, now)
         == if now <= c.op.at + c.op.ttl then Some(LastName(later, c.op.token, c.op.username)) else None
  {
    StoreSimulatesHistory(past + [c] + later, c.op.token, now);
    GrantSurvives(past, c, later);
  }

  lemma {:induction false} GrantGone(past: seq<Event>, d: Event, later: seq<Event>)
    requires d.op.Delete? && Untouched(later, d.op.token)
    ensures GrantOf(past + [d] + later, d.op.token) == None
  {
    var all := past + [d] + later;
    if later == [] {
      assert all == past + [d];
    } else {
      GrantGone(past, d, later[..|later| - 1]);
      assert all[..|all| - 1] == past + [d] + later[..|later| - 1];
    }
  }

  /** A deleted token stays rejected until it is created again. */
  lemma {:induction false} RejectedAfterDelete(past: seq<Event>, d: Event, later: seq<Event>, now: int)
    requires d.op.Delete? && Untouched(later, d.op.token)
    requires WellTimed(past + [d] + later, now)
    ensures Lookup(After(past + [d] + later), d.op.token, now) == None
  {
    StoreSimulatesHistory(past + [d] + later, d.op.token, now);
    GrantGone(past, d, later);
  }
}
