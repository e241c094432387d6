/**
 Friendships of internal/db/db.go: AddFriend, RemoveFriend and IsFriend, in which any statement, the
 start of the transaction or its commit may fail.
 */
module Friends {
  import opened Common

  type Pairs = set<(int, int)>

  /** Which of the database's answers are failures. */
  datatype Faults = Faults(lookup1: bool, lookup2: bool, start: bool, first: bool, second: bool, commit: bool)

  const NO_FAULTS := Faults(false, false, false, false, false, false)

  datatype Outcome =
    | Done
    | Refused      // the same user twice, or a user that does not exist
    | NotFriends   // the first delete found no row
    | HalfMissing  // the first delete found a row and the second did not
    | Fault

  predicate TransactionFails(f: Faults) {
    f.start || f.first || f.second || f.commit
  }

  class Database {
    var users: set<int>
    var friends: Pairs

    constructor ()
      ensures users == {} && friends == {}
    {
      users, friends := {}, {};
    }

    method AddFriend(user: int, friend: int, f: Faults) returns (outcome: Outcome)
      modifies this`friends
      ensures outcome == AddOutcome(old(users), user, friend, f)
      ensures friends == if outcome.Done? then old(friends) + {(user, friend), (friend, user)} else old(friends)
    {
      if user == friend {
        return Refused;
      }
      if f.lookup1 {
        return Fault;
      }
      if user !in users {
        return Refused;
      }
      if f.lookup2 {
        return Fault;
      }
      if friend !in users {
        return Refused;
      }
      if f.start {
        return Fault;
      }
      var tx := friends;
      if f.first {
        return Fault;
      }
      tx := tx + {(user, friend)};
      if f.second {
        return Fault;
      }
      tx := tx + {(friend, user)};
      if f.commit {
        return Fault;
      }
      friends := tx;
      return Done;
    }

    method RemoveFriend(user: int, friend: int, f: Faults) returns (outcome: Outcome)
      modifies this`friends
      ensures outcome == RemoveOutcome(old(friends), user, friend, f)
      ensures friends == if outcome.Done? then old(friends) - {(user, friend), (friend, user)} else old(friends)
    {
      if f.start {
        return Fault;
      }
      var tx := friends;
      var pairs := [(user, friend), (friend, user)];
      var i := 0;
      while i < 2
        invariant 0 <= i <= 2
        invariant tx == old(friends) -
                        if i == 0 then {} else if i == 1 then {(user, friend)} else {(user, friend), (friend, user)}
        invariant i >= 1 ==> !f.first && (user, friend) in old(friends)
        invariant i >= 2 ==> !f.second && (friend, user) in old(friends) && user != friend
      {
        if (if i == 0 then f.first else f.second) {
          return Fault;
        }
        var found := pairs[i] in tx;
        tx := tx - {pairs[i]};
        if !found {
          return if i == 0 then NotFriends else HalfMissing;
        }
        i := i + 1;
      }
      if f.commit {
        return Fault;
      }
      friends := tx;
      return Done;
    }

    method IsFriend(user: int, friend: int, fails: bool) returns (r: Result<bool>)
      ensures r.Err? <==> fails
      ensures r.Ok? ==> (r.value <==> (user, friend) in friends)
      ensures r.Ok? && Consistent(users, friends) ==> (r.value <==> (friend, user) in friends)
    {
      if fails {
        return Err("database error");
      }
      r := Ok((user, friend) in friends);
    }
  }

  function AddOutcome(users: set<int>, user: int, friend: int, f: Faults): Outcome {
    if user == friend then Refused
    else if f.lookup1 then Fault
    else if user !in users then Refused
    else if f.lookup2 then Fault
    else if friend !in users then Refused
    else if TransactionFails(f) then Fault
    else Done
  }

  function RemoveOutcome(friends: Pairs, user: int, friend: int, f: Faults): Outcome {
    if f.start || f.first then Fault
    else if (user, friend) !in friends then NotFriends
    else if f.second then Fault
    else if (friend, user) !in friends || user == friend then HalfMissing
    else if f.commit then Fault
    else Done
  }

  // ----- Runs

  datatype Op =
    | Register(id: int)
    | Add(user: int, friend: int, faults: Faults)
    | Remove(user: int, friend: int, faults: Faults)

  datatype State = State(users: set<int>, friends: Pairs)

  function Outcomes(st: State, op: Op): Outcome {
    match op
    case Register(_) => Done
    case Add(user, friend, f) => AddOutcome(st.users, user, friend, f)
    case Remove(user, friend, f) => RemoveOutcome(st.friends, user, friend, f)
  }

  function Next(st: State, op: Op): State {
    if !Outcomes(st, op).Done? then st
    else
      match op
      case Register(id) => st.(users := st.users + {id})
      case Add(user, friend, _) => st.(friends := st.friends + {(user, friend), (friend, user)})
      case Remove(user, friend, _) => st.(friends := st.friends - {(user, friend), (friend, user)})
  }

  function After(ops: seq<Op>): State {
    if ops == [] then State({}, {}) else Next(After(ops[..|ops| - 1]), ops[|ops| - 1])
  }

  /** Symmetric, irreflexive, and between existing users. */
  ghost predicate Consistent(users: set<int>, friends: Pairs) {
    forall p :: p in friends ==> p.0 != p.1 && p.0 in users && p.1 in users && (p.1, p.0) in friends
  }

  // ----- The same operations on an undirected graph, where an edge appears or disappears in one go

  datatype Graph = Graph(users: set<int>, edges: set<set<int>>)

  function GraphOutcome(g: Graph, op: Op): Outcome {
    match op
    case Register(_) => Done
    case Add(user, friend, f) =>
      if user == friend then Refused
      else if f == NO_FAULTS && {user, friend} <= g.users then Done
      else if !f.lookup1 && (user !in g.users || (!f.lookup2 && friend !in g.users)) then Refused
      else Fault
    case Remove(user, friend, f) =>
      if f.start || f.first then Fault
      else if {user, friend} !in g.edges then NotFriends
      else if f.second || f.commit then Fault
      else Done
  }

  function GraphNext(g: Graph, op: Op): Graph {
    if !GraphOutcome(g, op).Done? then g
    else
      match op
      case Register(id) => g.(users := g.users + {id})
      case Add(user, friend, _) => g.(edges := g.edges + {{user, friend}})
      case Remove(user, friend, _) => g.(edges := g.edges - {{user, friend}})
  }

  function GraphAfter(ops: seq<Op>): Graph {
    if ops == [] then Graph({}, {}) else GraphNext(GraphAfter(ops[..|ops| - 1]), ops[|ops| - 1])
  }

  /** The table holds both directions of exactly the edges, and an edge joins two different users. */
  ghost predicate Represents(st: State, g: Graph) {
    && st.users == g.users && Consistent(st.users, st.friends)
    && (forall a, b :: (a, b) in st.friends <==> {a, b} in g.edges)
  }

  lemma SamePair(a: int, b: int, c: int, d: int)
    ensures {a, b} == {c, d} <==> (a == c && b == d) || (a == d && b == c)
  {
    if {a, b} == {c, d} {
      assert a in {c, d} && b in {c, d} && c in {a, b} && d in {a, b};
    }
  }

  lemma SameOutcome(st: State, g: Graph, op: Op)
    requires Represents(st, g)
    ensures Outcomes(st, op) == GraphOutcome(g, op)
  {
    if op.Remove? {
      assert (op.user, op.friend) in st.friends ==> (op.friend, op.user) in st.friends && op.user != op.friend;
    }
  }

  lemma StepRepresents(st: State, g: Graph, op: Op)
    requires Represents(st, g)
    ensures Represents(Next(st, op), GraphNext(g, op))
  {
    SameOutcome(st, g, op);
    var st', g' := Next(st, op), GraphNext(g, op);
    forall a, b
      ensures (a, b) in st'.friends <==> {a, b} in g'.edges
    {
      if !op.Register? {
        SamePair(a, b, op.user, op.friend);
      }
    }
  }

  /**
   Whatever fails, the table stays consistent and runs in step with the graph: no half friendship is ever
   visible, and every operation has the outcome it has on the graph.
   */
  lemma {:induction false} TableIsGraph(ops: seq<Op>)
    ensures Represents(After(ops), GraphAfter(ops))
  {
    if ops != [] {
      TableIsGraph(ops[..|ops| - 1]);
      StepRepresents(After(ops[..|ops| - 1]), GraphAfter(ops[..|ops| - 1]), ops[|ops| - 1]);
    }
  }

  /** The outcome of the next operation is the graph's, so a removal never finds only one half. */
  lemma {:induction false} RemovalFindsBothHalves(ops: seq<Op>, op: Op)
    ensures Outcomes(After(ops), op) == GraphOutcome(GraphAfter(ops), op)
    ensures !Outcomes(After(ops), op).HalfMissing?
  {
    TableIsGraph(ops);
    SameOutcome(After(ops), GraphAfter(ops), op);
  }

  // ----- Friendship, read off the history

  ghost predicate Registered(ops: seq<Op>, user: int) {
    exists i :: 0 <= i < |ops| && ops[i] == Register(user)
  }

  /** The last addition or removal that went through decides; it may have come from either side. */
  ghost predicate Befriended(ops: seq<Op>, a: int, b: int) {
    if ops == [] then false
    else
      var past, last := ops[..|ops| - 1], ops[|ops| - 1];
      var about := !last.Register? && ((last.user == a && last.friend == b) || (last.user == b && last.friend == a));
      if about && last.Add? && last.faults == NO_FAULTS && a != b && Registered(past, a) && Registered(past, b) then
        true
      else if about && last.Remove? && !last.faults.start && !last.faults.first && !last.faults.second
              && !last.faults.commit then
        false
      else Befriended(past, a, b)
  }

  lemma {:induction false} UsersAreRegistered(ops: seq<Op>, user: int)
    ensures user in After(ops).users <==> Registered(ops, user)
  {
    if ops != [] {
      var past, last := ops[..|ops| - 1], ops[|ops| - 1];
      UsersAreRegistered(past, user);
      assert ops == past + [last];
      if Registered(past, user) {
        var i :| 0 <= i < |past| && past[i] == Register(user);
        assert ops[i] == Register(user);
      }
    }
  }

  /** After any history, two users are friends in the table iff the history made them so. */
  lemma {:induction false} FriendsByHistory(ops: seq<Op>, a: int, b: int)
    ensures (a, b) in After(ops).friends <==> Befriended(ops, a, b)
  {
    if ops != [] {
      var past := ops[..|ops| - 1];
      FriendsByHistory(past, a, b);
      UsersAreRegistered(past, a);
      UsersAreRegistered(past, b);
      TableIsGraph(past);
    }
  }

  /** What an addition answers after any history. */
  lemma {:induction false} AddAnswers(ops: seq<Op>, user: int, friend: int, f: Faults)
    ensures var outcome := Outcomes(After(ops), Add(user, friend, f));
            && (outcome == Done <==>
                  && user != friend && Registered(ops, user) && Registered(ops, friend)
                  && !f.lookup1 && !f.lookup2 && !f.start && !f.first && !f.second && !f.commit)
            && (outcome == Refused <==>
                  || user == friend
                  || (!f.lookup1 && !Registered(ops, user))
                  || (!f.lookup1 && !f.lookup2 && !Registered(ops, friend)))
            && (outcome == Done || outcome == Refused || outcome == Fault)
  {
    UsersAreRegistered(ops, user);
    UsersAreRegistered(ops, friend);
  }

  /** What a removal answers after any history: there is no half friendship to find. */
  lemma {:induction false} RemoveAnswers(ops: seq<Op>, user: int, friend: int, f: Faults)
    ensures var outcome := Outcomes(After(ops), Remove(user, friend, f));
            && (outcome == Done <==> Befriended(ops, user, friend) && !f.start && !f.first && !f.second && !f.commit)
            && (outcome == NotFriends <==> !Befriended(ops, user, friend) && !f.start && !f.first)
            && (outcome == Done || outcome == NotFriends || outcome == Fault)
  {
    FriendsByHistory(ops, user, friend);
    TableIsGraph(ops);
  }

  /** Adding and then removing a friend that was not there restores the table. */
  lemma {:induction false} AddThenRemove(ops: seq<Op>, user: int, friend: int)
    requires user != friend && Registered(ops, user) && Registered(ops, friend) && !Befriended(ops, user, friend)
    ensures After(ops + [Add(user, friend, NO_FAULTS)] + [Remove(user, friend, NO_FAULTS)]) == After(ops)
  {
    var added := ops + [Add(user, friend, NO_FAULTS)];
    var both := added + [Remove(user, friend, NO_FAULTS)];
    assert added[..|added| - 1] == ops && both[..|both| - 1] == added;
    TableIsGraph(ops);
    AddAnswers(ops, user, friend, NO_FAULTS);
    FriendsByHistory(ops, user, friend);
    assert (friend, user) !in After(ops).friends;
  }
}
