/**
 Groups: the group tables of internal/db/db.go, the membership actions of internal/server/user.go and
 handleGroup of internal/server/web.go, and the group delivery of internal/server/server.go.
 */
module Groups {
  import opened Common
  import Presence
  import Registry
  import Text

  datatype Group = Group(id: int, creator: int)

  /** users and groups by their unique names, group_members as pairs of ids. */
  datatype Tables = Tables(users: map<string, int>, groups: map<string, Group>, members: set<(int, int)>,
                           nextUser: int, nextGroup: int)

  /** Which of the database's answers are failures: a lookup, the changing statement, or what comes after it. */
  datatype Faults = Faults(lookup: bool, statement: bool, second: bool)

  const EMPTY := Tables(map[], map[], {}, 1, 1)

  // ----- Statements

  function Utf8Length(s: string): nat {
    if s == [] then 0
    else
      var c := s[0] as int;
      (if c < 0x80 then 1 else if c < 0x800 then 2 else if c < 0x10000 then 3 else 4) + Utf8Length(s[1..])
  }

  predicate GroupNameOk(name: string) {
    (exists i :: 0 <= i < |name| && !Text.IsSpace(name[i])) && Utf8Length(name) <= 32
  }

  function InsertUser(t: Tables, name: string): Tables {
    t.(users := t.users[name := t.nextUser], nextUser := t.nextUser + 1)
  }

  function InsertGroup(t: Tables, name: string, creator: int): Tables {
    t.(groups := t.groups[name := Group(t.nextGroup, creator)], nextGroup := t.nextGroup + 1)
  }

  function InsertMember(t: Tables, group: string, user: int): Tables
    requires group in t.groups
  {
    t.(members := t.members + {(t.groups[group].id, user)})
  }

  function DeleteMember(t: Tables, group: string, user: int): Tables
    requires group in t.groups
  {
    t.(members := t.members - {(t.groups[group].id, user)})
  }

  // ----- Queries

  ghost predicate IsMember(t: Tables, user: string, group: string) {
    user in t.users && group in t.groups && (t.groups[group].id, t.users[user]) in t.members
  }

  class Store {
    var t: Tables

    constructor ()
      ensures t == EMPTY
    {
      t := EMPTY;
    }

    /** Two statements outside a transaction: if the second fails, the group is left without members. */
    method CreateGroup(name: string, creator: int, f: Faults) returns (r: Result<int>)
      modifies this
      ensures r.Ok? <==> GroupNameOk(name) && name !in old(t).groups && !f.statement && !f.second
      ensures r.Ok? ==> t == InsertMember(InsertGroup(old(t), name, creator), name, creator)
      ensures r.Err? && GroupNameOk(name) && name !in old(t).groups && !f.statement ==>
                t == InsertGroup(old(t), name, creator)
      ensures !GroupNameOk(name) || name in old(t).groups || f.statement ==> t == old(t)
    {
      if !GroupNameOk(name) {
        return Err("group name");
      }
      if f.statement {
        return Err("failed to create group");
      }
      if name in t.groups {
        return Err("group name already exists");
      }
      t := InsertGroup(t, name, creator);
      if f.second {
        return Err("failed to add creator to group");
      }
      t := InsertMember(t, name, creator);
      return Ok(t.groups[name].id);
    }

    method JoinGroup(group: string, user: int, f: Faults) returns (r: Result<()>)
      modifies this
      ensures r.Ok? <==> group in old(t).groups && !f.lookup && !f.statement
      ensures t == if r.Ok? then InsertMember(old(t), group, user) else old(t)
    {
      if f.lookup {
        return Err("database error");
      }
      if group !in t.groups {
        return Err("group not found");
      }
      if f.statement {
        return Err("failed to join group");
      }
      t := InsertMember(t, group, user);
      return Ok(());
    }

    /** If counting the deleted rows fails, the membership is gone and the caller is told that it failed. */
    method LeaveGroup(group: string, user: int, f: Faults) returns (r: Result<()>)
      modifies this
      ensures r.Ok? <==>
              && !f.lookup && !f.statement && !f.second
              && group in old(t).groups && (old(t).groups[group].id, user) in old(t).members
      ensures t == if group in old(t).groups && !f.lookup && !f.statement then DeleteMember(old(t), group, user)
                   else old(t)
    {
      if f.lookup {
        return Err("database error");
      }
      if group !in t.groups {
        return Err("group not found");
      }
      if f.statement {
        return Err("failed to leave group");
      }
      var before := t.members;
      t := DeleteMember(t, group, user);
      if f.second {
        return Err("failed to get rows affected");
      }
      if t.members == before {
        return Err("user is not a member of this group");
      }
      return Ok(());
    }

    /** The join of users, group_members and groups: every member's name once, in any order. */
    method GetGroupMembers(group: string, fails: bool) returns (r: Result<seq<string>>)
      ensures r.Err? <==> fails
      ensures r.Ok? ==> Distinct(r.value) && forall n :: n in r.value <==> IsMember(t, n, group)
    {
      if fails {
        return Err("database error");
      }
      var names: seq<string> := [];
      var pending := t.users.Keys;
      while pending != {}
        invariant pending <= t.users.Keys
        invariant Distinct(names)
        invariant forall n :: n in names <==> n !in pending && IsMember(t, n, group)
      {
        var n :| n in pending;
        if group in t.groups && (t.groups[group].id, t.users[n]) in t.members {
          names := names + [n];
        }
        pending := pending - {n};
      }
      return Ok(names);
    }

    method GetUserGroups(user: string, fails: bool) returns (r: Result<seq<string>>)
      ensures r.Err? <==> fails
      ensures r.Ok? ==> Distinct(r.value) && forall g :: g in r.value <==> IsMember(t, user, g)
    {
      if fails {
        return Err("database error");
      }
      var groups: seq<string> := [];
      var pending := t.groups.Keys;
      while pending != {}
        invariant pending <= t.groups.Keys
        invariant Distinct(groups)
        invariant forall g :: g in groups <==> g !in pending && IsMember(t, user, g)
      {
        var g :| g in pending;
        if user in t.users && (t.groups[g].id, t.users[user]) in t.members {
          groups := groups + [g];
        }
        pending := pending - {g};
      }
      return Ok(groups);
    }

    /** A handler: its lookups and checks, then the statements of its action. */
    method Perform(a: Action) returns (r: Result<()>)
      modifies this
      ensures t == Apply(old(t), a)
      ensures r.Ok? <==> Succeeds(old(t), a)
    {
      var f := a.faults;
      if a.Register? {
        if f.statement || a.user in t.users {
          return Err("failed to register user");
        }
        t := InsertUser(t, a.user);
        return Ok(());
      }
      if f.lookup {
        return Err("database error");
      }
      if a.actor !in t.users {
        return Err("user not found");
      }
      match a
      case Create(actor, group, _) =>
        var created := CreateGroup(group, t.users[actor], f);
        r := if created.Ok? then Ok(()) else Err(created.error);
      case Join(actor, group, _) =>
        r := JoinGroup(group, t.users[actor], f);
      case Leave(actor, group, _) =>
        r := LeaveGroup(group, t.users[actor], f);
      case Invite(_, group, target, _) =>
        if target !in t.users {
          return Err("target not found");
        }
        r := JoinGroup(group, t.users[target], f);
      case Kick(actor, group, target, _) =>
        if group !in t.groups {
          return Err("group not found");
        }
        if t.groups[group].creator != t.users[actor] {
          return Err("only the creator may kick");
        }
        if target !in t.users {
          return Err("target not found");
        }
        r := LeaveGroup(group, t.users[target], f);
    }

    /**
     The sender must be a user and the group must have members; whether the sender is one is not asked.
     The TCP registry is locked once for all members; connsAt(i) is the WebSocket registry as the lookup
     of member i finds it.
     */
    method BroadcastToGroup<U, W>(group: string, from: string, online: map<string, U>,
                                  connsAt: nat -> map<string, W>, fails: bool)
        returns (r: Result<()>, members: seq<string>, tcp: seq<U>, ws: seq<W>)
      ensures r.Ok? <==> !fails && from in t.users && exists n :: IsMember(t, n, group)
      ensures r.Err? ==> tcp == [] && ws == []
      ensures r.Ok? ==> Distinct(members) && forall n :: n in members <==> IsMember(t, n, group)
      ensures r.Ok? ==> tcp == Offers(members, online) && ws == OffersEach(members, Lookups(connsAt, |members|))
    {
      members, tcp, ws := [], [], [];
      if fails {
        return Err("database error"), members, tcp, ws;
      }
      if from !in t.users {
        return Err("sender not found"), members, tcp, ws;
      }
      var found := GetGroupMembers(group, false);
      members := found.value;
      if |members| == 0 {
        return Err("no such group or no members"), members, tcp, ws;
      }
      assert IsMember(t, members[0], group);
      tcp := Deliver(members, online);
      ws := DeliverEach(members, connsAt);
      return Ok(()), members, tcp, ws;
    }
  }

  // ----- Actions

  datatype Action =
    | Register(user: string, faults: Faults)
    | Create(actor: string, group: string, faults: Faults)
    | Join(actor: string, group: string, faults: Faults)
    | Leave(actor: string, group: string, faults: Faults)
    | Invite(actor: string, group: string, target: string, faults: Faults)
    | Kick(actor: string, group: string, target: string, faults: Faults)

  /** The action gets past every check of its handler, and nothing before its first change fails. */
  predicate Accepted(t: Tables, a: Action) {
    && !a.faults.statement
    && (a.Register? || !a.faults.lookup)
    && match a
       case Register(user, _) => user !in t.users
       case Create(actor, group, _) => actor in t.users && GroupNameOk(group) && group !in t.groups
       case Join(actor, group, _) => actor in t.users && group in t.groups
       case Leave(actor, group, _) => actor in t.users && group in t.groups
       case Invite(actor, group, target, _) => actor in t.users && target in t.users && group in t.groups
       case Kick(actor, group, target, _) =>
         && actor in t.users && target in t.users && group in t.groups
         && t.groups[group].creator == t.users[actor]
  }

  /** The action is accepted and its statements do what it asked for. */
  ghost predicate Succeeds(t: Tables, a: Action) {
    && Accepted(t, a)
    && (a.Create? ==> !a.faults.second)
    && (a.Leave? ==> !a.faults.second && IsMember(t, a.actor, a.group))
    && (a.Kick? ==> !a.faults.second && IsMember(t, a.target, a.group))
  }

  function Apply(t: Tables, a: Action): Tables {
    if !Accepted(t, a) then t
    else
      match a
      case Register(user, _) => InsertUser(t, user)
      case Create(actor, group, f) =>
        var created := InsertGroup(t, group, t.users[actor]);
        if f.second then created else InsertMember(created, group, t.users[actor])
      case Join(actor, group, _) => InsertMember(t, group, t.users[actor])
      case Leave(actor, group, _) => DeleteMember(t, group, t.users[actor])
      case Invite(_, group, target, _) => InsertMember(t, group, t.users[target])
      case Kick(_, group, target, _) => DeleteMember(t, group, t.users[target])
  }

  function After(actions: seq<Action>): Tables {
    if actions == [] then EMPTY else Apply(After(actions[..|actions| - 1]), actions[|actions| - 1])
  }

  // ----- Read off the history

  function Encoded(c: char): seq<int> {
    var n := c as int;
    if n < 0x80 then [n]
    else if n < 0x800 then [0xC0 + n / 0x40, 0x80 + n % 0x40]
    else if n < 0x10000 then [0xE0 + n / 0x1000, 0x80 + n / 0x40 % 0x40, 0x80 + n % 0x40]
    else [0xF0 + n / 0x40000, 0x80 + n / 0x1000 % 0x40, 0x80 + n / 0x40 % 0x40, 0x80 + n % 0x40]
  }

  function Utf8(s: string): seq<int> {
    if s == [] then [] else Encoded(s[0]) + Utf8(s[1..])
  }

  /** Not blank, and at most 32 bytes. */
  predicate NameFits(name: string) {
    Text.TrimSpace(name) != [] && |Utf8(name)| <= 32
  }

  ghost predicate Registered(actions: seq<Action>, user: string) {
    exists i :: 0 <= i < |actions| && actions[i].Register? && actions[i].user == user && !actions[i].faults.statement
  }

  /** Who created a group: the actor of the first creation that a registered user got through. */
  ghost function CreatorOf(actions: seq<Action>, group: string): Option<string> {
    if actions == [] then None
    else
      var past, last := actions[..|actions| - 1], actions[|actions| - 1];
      if CreatorOf(past, group).Some? then CreatorOf(past, group)
      else if && last.Create? && last.group == group && NameFits(group) && Registered(past, last.actor)
              && !last.faults.lookup && !last.faults.statement then Some(last.actor)
      else None
  }

  /** After past, action a puts user into group. */
  ghost predicate PutsIn(past: seq<Action>, a: Action, user: string, group: string) {
    && !a.Register? && a.group == group && Registered(past, a.actor) && !a.faults.lookup && !a.faults.statement
    && (|| (&& a.Create? && a.actor == user && !a.faults.second
            && NameFits(group) && CreatorOf(past, group).None?)
        || (a.Join? && a.actor == user && CreatorOf(past, group).Some?)
        || (a.Invite? && a.target == user && Registered(past, user) && CreatorOf(past, group).Some?))
  }

  /** After past, action a takes user out of group. */
  ghost predicate TakesOut(past: seq<Action>, a: Action, user: string, group: string) {
    && !a.Register? && a.group == group && Registered(past, a.actor) && !a.faults.lookup && !a.faults.statement
    && (|| (a.Leave? && a.actor == user && CreatorOf(past, group).Some?)
        || (a.Kick? && a.target == user && Registered(past, user) && CreatorOf(past, group) == Some(a.actor)))
  }

  /** The last action that put the user in or took it out decides. */
  ghost predicate Belongs(actions: seq<Action>, user: string, group: string) {
    if actions == [] then false
    else
      var past, last := actions[..|actions| - 1], actions[|actions| - 1];
      PutsIn(past, last, user, group) || (!TakesOut(past, last, user, group) && Belongs(past, user, group))
  }

  /** Ids are unique, below the next to be handed out, and memberships refer to them. */
  ghost predicate Sound(t: Tables) {
    && (forall u :: u in t.users ==> t.users[u] < t.nextUser)
    && (forall u, v :: u in t.users && v in t.users && t.users[u] == t.users[v] ==> u == v)
    && (forall g :: g in t.groups ==> t.groups[g].id < t.nextGroup)
    && (forall g, h :: g in t.groups && h in t.groups && t.groups[g].id == t.groups[h].id ==> g == h)
    && (forall m :: m in t.members ==> m.0 < t.nextGroup && m.1 < t.nextUser)
  }

  lemma InsertMemberIs(t: Tables, group: string, target: string, user: string, other: string)
    requires Sound(t) && group in t.groups && target in t.users
    ensures Sound(InsertMember(t, group, t.users[target]))
    ensures IsMember(InsertMember(t, group, t.users[target]), user, other)
       <==> IsMember(t, user, other) || (user == target && other == group)
  {
  }

  lemma DeleteMemberIs(t: Tables, group: string, target: string, user: string, other: string)
    requires Sound(t) && group in t.groups && target in t.users
    ensures Sound(DeleteMember(t, group, t.users[target]))
    ensures IsMember(DeleteMember(t, group, t.users[target]), user, other)
       <==> IsMember(t, user, other) && !(user == target && other == group)
  {
  }

  lemma InsertGroupIs(t: Tables, group: string, creator: int, user: string, other: string)
    requires Sound(t) && group !in t.groups
    ensures Sound(InsertGroup(t, group, creator))
    ensures IsMember(InsertGroup(t, group, creator), user, other) <==> IsMember(t, user, other)
  {
  }

  lemma InsertUserIs(t: Tables, name: string, user: string, other: string)
    requires Sound(t) && name !in t.users
    ensures Sound(InsertUser(t, name))
    ensures IsMember(InsertUser(t, name), user, other) <==> IsMember(t, user, other)
  {
  }

  lemma {:induction false} Utf8LengthIs(s: string)
    ensures |Utf8(s)| == Utf8Length(s)
  {
    if s != [] {
      Utf8LengthIs(s[1..]);
    }
  }

  lemma NameOkIffFits(name: string)
    ensures GroupNameOk(name) <==> NameFits(name)
  {
    Utf8LengthIs(name);
    var a, b := Text.TrimSpaceCuts(name);
  }

  lemma OneMore(past: seq<Action>, last: Action)
    ensures (past + [last])[..|past|] == past
    ensures After(past + [last]) == Apply(After(past), last)
  {
    assert (past + [last])[..|past|] == past;
  }

  lemma {:induction false} UsersAreRegistered(actions: seq<Action>, user: string)
    ensures user in After(actions).users <==> Registered(actions, user)
  {
    if actions != [] {
      var past, last := actions[..|actions| - 1], actions[|actions| - 1];
      UsersAreRegistered(past, user);
      assert actions == past + [last];
      if Registered(past, user) {
        var i :| 0 <= i < |past| && past[i].Register? && past[i].user == user && !past[i].faults.statement;
        assert actions[i] == past[i];
      }
    }
  }

  lemma StepKeepsSound(t: Tables, a: Action)
    requires Sound(t)
    ensures Sound(Apply(t, a))
  {
    if Accepted(t, a) {
      match a
      case Register(user, _) => InsertUserIs(t, user, "", "");
      case Create(actor, group, _) =>
        InsertGroupIs(t, group, t.users[actor], "", "");
        InsertMemberIs(InsertGroup(t, group, t.users[actor]), group, actor, "", "");
      case Join(actor, group, _) => InsertMemberIs(t, group, actor, "", "");
      case Leave(actor, group, _) => DeleteMemberIs(t, group, actor, "", "");
      case Invite(_, group, target, _) => InsertMemberIs(t, group, target, "", "");
      case Kick(_, group, target, _) => DeleteMemberIs(t, group, target, "", "");
    }
  }

  lemma {:induction false} RunsAreSound(actions: seq<Action>)
    ensures Sound(After(actions))
  {
    if actions != [] {
      RunsAreSound(actions[..|actions| - 1]);
      StepKeepsSound(After(actions[..|actions| - 1]), actions[|actions| - 1]);
    }
  }

  /** A group is in the tables iff the history created it, with the id of the user who did. */
  ghost predicate CreatedAsRecorded(t: Tables, actions: seq<Action>, group: string) {
    && (group in t.groups <==> CreatorOf(actions, group).Some?)
    && (group in t.groups ==>
          && CreatorOf(actions, group).value in t.users
          && t.groups[group].creator == t.users[CreatorOf(actions, group).value])
  }

  lemma {:induction false} GroupsAreCreated(actions: seq<Action>, group: string)
    ensures CreatedAsRecorded(After(actions), actions, group)
  {
    if actions != [] {
      var past, last := actions[..|actions| - 1], actions[|actions| - 1];
      GroupsAreCreated(past, group);
      if last.Create? {
        UsersAreRegistered(past, last.actor);
        NameOkIffFits(last.group);
      }
    }
  }

  /** The creator's id tells it from every other user. */
  lemma CreatorIs(actions: seq<Action>, group: string, actor: string)
    requires Registered(actions, actor) && CreatorOf(actions, group).Some?
    ensures var t := After(actions);
            && actor in t.users && group in t.groups
            && (t.groups[group].creator == t.users[actor] <==> CreatorOf(actions, group) == Some(actor))
  {
    GroupsAreCreated(actions, group);
    UsersAreRegistered(actions, actor);
    RunsAreSound(actions);
  }

  /** What an action does to the membership of a user in a group. */
  ghost predicate Follows(past: seq<Action>, a: Action, user: string, group: string) {
    IsMember(Apply(After(past), a), user, group) <==>
    PutsIn(past, a, user, group) || (!TakesOut(past, a, user, group) && IsMember(After(past), user, group))
  }

  /** What the history says of the names an action mentions. */
  lemma Facts(past: seq<Action>, a: Action)
    requires !a.Register?
    ensures a.actor in After(past).users <==> Registered(past, a.actor)
    ensures a.group in After(past).groups <==> CreatorOf(past, a.group).Some?
    ensures Sound(After(past)) && (GroupNameOk(a.group) <==> NameFits(a.group))
    ensures a.Invite? || a.Kick? ==> (a.target in After(past).users <==> Registered(past, a.target))
  {
    UsersAreRegistered(past, a.actor);
    GroupsAreCreated(past, a.group);
    RunsAreSound(past);
    NameOkIffFits(a.group);
    if a.Invite? || a.Kick? {
      UsersAreRegistered(past, a.target);
    }
  }

  lemma CreateFollows(past: seq<Action>, a: Action, user: string, group: string)
    requires a.Create?
    ensures Follows(past, a, user, group)
  {
    var t := After(past);
    Facts(past, a);
    if Accepted(t, a) {
      InsertGroupIs(t, a.group, t.users[a.actor], user, group);
      InsertMemberIs(InsertGroup(t, a.group, t.users[a.actor]), a.group, a.actor, user, group);
    }
  }

  lemma JoinFollows(past: seq<Action>, a: Action, user: string, group: string)
    requires a.Join? || a.Invite?
    ensures Follows(past, a, user, group)
  {
    Facts(past, a);
    if Accepted(After(past), a) {
      InsertMemberIs(After(past), a.group, if a.Join? then a.actor else a.target, user, group);
    }
  }

  lemma LeaveFollows(past: seq<Action>, a: Action, user: string, group: string)
    requires a.Leave? || a.Kick?
    ensures Follows(past, a, user, group)
  {
    Facts(past, a);
    if Registered(past, a.actor) && CreatorOf(past, a.group).Some? {
      CreatorIs(past, a.group, a.actor);
    }
    if Accepted(After(past), a) {
      DeleteMemberIs(After(past), a.group, if a.Leave? then a.actor else a.target, user, group);
    }
  }

  lemma ActionFollows(past: seq<Action>, a: Action, user: string, group: string)
    ensures Follows(past, a, user, group)
  {
    if a.Register? {
      RunsAreSound(past);
      if Accepted(After(past), a) {
        InsertUserIs(After(past), a.user, user, group);
      }
    } else if a.Create? {
      CreateFollows(past, a, user, group);
    } else if a.Join? || a.Invite? {
      JoinFollows(past, a, user, group);
    } else {
      LeaveFollows(past, a, user, group);
    }
  }

  /** Foreign keys and uniqueness hold in every reachable state, and membership is what the history says. */
  lemma {:induction false} MembershipFollowsHistory(actions: seq<Action>, user: string, group: string)
    ensures Sound(After(actions))
    ensures IsMember(After(actions), user, group) <==> Belongs(actions, user, group)
  {
    RunsAreSound(actions);
    if actions != [] {
      var past := actions[..|actions| - 1];
      MembershipFollowsHistory(past, user, group);
      ActionFollows(past, actions[|actions| - 1], user, group);
    }
  }

  // ----- What each action answers

  ghost predicate NoFaults(f: Faults) {
    !f.lookup && !f.statement && !f.second
  }

  lemma RegisterAnswers(actions: seq<Action>, user: string, f: Faults)
    ensures Succeeds(After(actions), Register(user, f)) <==> !Registered(actions, user) && !f.statement
  {
    UsersAreRegistered(actions, user);
  }

  lemma CreateAnswers(actions: seq<Action>, actor: string, group: string, f: Faults)
    ensures Succeeds(After(actions), Create(actor, group, f)) <==>
            Registered(actions, actor) && NameFits(group) && CreatorOf(actions, group).None? && NoFaults(f)
  {
    Facts(actions, Create(actor, group, f));
  }

  lemma JoinAnswers(actions: seq<Action>, actor: string, group: string, f: Faults)
    ensures Succeeds(After(actions), Join(actor, group, f)) <==>
            Registered(actions, actor) && CreatorOf(actions, group).Some? && !f.lookup && !f.statement
  {
    Facts(actions, Join(actor, group, f));
  }

  lemma InviteAnswers(actions: seq<Action>, actor: string, group: string, target: string, f: Faults)
    ensures Succeeds(After(actions), Invite(actor, group, target, f)) <==>
            && Registered(actions, actor) && Registered(actions, target) && CreatorOf(actions, group).Some?
            && !f.lookup && !f.statement
  {
    Facts(actions, Invite(actor, group, target, f));
  }

  lemma LeaveAnswers(actions: seq<Action>, actor: string, group: string, f: Faults)
    ensures Succeeds(After(actions), Leave(actor, group, f)) <==> Belongs(actions, actor, group) && NoFaults(f)
  {
    Facts(actions, Leave(actor, group, f));
    MembershipFollowsHistory(actions, actor, group);
  }

  /** A kick succeeds iff it is the creator's, of a member. */
  lemma KickAnswers(actions: seq<Action>, actor: string, group: string, target: string, f: Faults)
    ensures Succeeds(After(actions), Kick(actor, group, target, f)) <==>
            CreatorOf(actions, group) == Some(actor) && Belongs(actions, target, group) && NoFaults(f)
  {
    Facts(actions, Kick(actor, group, target, f));
    MembershipFollowsHistory(actions, target, group);
    GroupsAreCreated(actions, group);
    if Registered(actions, actor) && CreatorOf(actions, group).Some? {
      CreatorIs(actions, group, actor);
    } else if CreatorOf(actions, group) == Some(actor) {
      UsersAreRegistered(actions, actor);
    }
  }

  /** Whatever fails, only the creator's kick ever changes anything, and then it takes out a member. */
  lemma KickOnlyByCreator(actions: seq<Action>, actor: string, group: string, target: string, f: Faults)
    requires After(actions + [Kick(actor, group, target, f)]) != After(actions)
    ensures CreatorOf(actions, group) == Some(actor) && Belongs(actions, target, group)
  {
    var a := Kick(actor, group, target, f);
    OneMore(actions, a);
    Facts(actions, a);
    CreatorIs(actions, group, actor);
    MembershipFollowsHistory(actions, target, group);
    assert Accepted(After(actions), a);
  }

  /** Who ends up in which group when an action without faults succeeds, and that nothing moves when it fails. */
  lemma {:induction false} ActionMoves(actions: seq<Action>, a: Action, user: string, group: string)
    requires NoFaults(a.faults)
    ensures var before, after := Belongs(actions, user, group), Belongs(actions + [a], user, group);
            if !Succeeds(After(actions), a) || a.Register? || a.group != group then after == before
            else if a.Create? || a.Join? then after == (before || user == a.actor)
            else if a.Invite? then after == (before || user == a.target)
            else if a.Leave? then after == (before && user != a.actor)
            else after == (before && user != a.target)
  {
    OneMore(actions, a);
    match a
    case Register(u, f) =>
    case Create(actor, g, f) => CreateAnswers(actions, actor, g, f);
    case Join(actor, g, f) => JoinAnswers(actions, actor, g, f);
    case Invite(actor, g, target, f) => InviteAnswers(actions, actor, g, target, f);
    case Leave(actor, g, f) => LeaveMoves(actions, a, user, group);
    case Kick(actor, g, target, f) => KickMoves(actions, a, user, group);
  }

  lemma LeaveMoves(actions: seq<Action>, a: Action, user: string, group: string)
    requires a.Leave? && NoFaults(a.faults)
    ensures TakesOut(actions, a, user, group) && Belongs(actions, user, group) <==>
            Succeeds(After(actions), a) && user == a.actor && group == a.group
  {
    LeaveAnswers(actions, a.actor, a.group, a.faults);
    MemberIsKnown(actions, a.actor, a.group);
  }

  lemma KickMoves(actions: seq<Action>, a: Action, user: string, group: string)
    requires a.Kick? && NoFaults(a.faults)
    ensures TakesOut(actions, a, user, group) && Belongs(actions, user, group) <==>
            Succeeds(After(actions), a) && user == a.target && group == a.group
  {
    KickAnswers(actions, a.actor, a.group, a.target, a.faults);
    MemberIsKnown(actions, a.target, a.group);
    GroupsAreCreated(actions, a.group);
    UsersAreRegistered(actions, a.actor);
  }

  lemma MemberIsKnown(actions: seq<Action>, user: string, group: string)
    ensures Belongs(actions, user, group) ==> Registered(actions, user) && CreatorOf(actions, group).Some?
  {
    MembershipFollowsHistory(actions, user, group);
    UsersAreRegistered(actions, user);
    GroupsAreCreated(actions, group);
  }

  // ----- Delivery

  /** Look each member up and offer a copy to whoever is registered under that name. */
  function Offers<U>(members: seq<string>, registry: map<string, U>): seq<U> {
    if members == [] then []
    else
      var last := members[|members| - 1];
      Offers(members[..|members| - 1], registry) + if last in registry then [registry[last]] else []
  }

  /** deliverToGroupMembersTCP: the whole loop runs under one lock. */
  method Deliver<U>(members: seq<string>, registry: map<string, U>) returns (offered: seq<U>)
    ensures offered == Offers(members, registry)
  {
    offered := [];
    for i := 0 to |members|
      invariant offered == Offers(members[..i], registry)
    {
      assert members[..i + 1][..i] == members[..i];
      if members[i] in registry {
        offered := offered + [registry[members[i]]];
      }
    }
    assert members[..|members|] == members;
  }

  /** deliverToGroupMembersWS takes the lock anew for each member: registries[i] is what it then finds. */
  function OffersEach<U>(members: seq<string>, registries: seq<map<string, U>>): seq<U>
    requires |registries| == |members|
  {
    if members == [] then []
    else
      var n := |members| - 1;
      OffersEach(members[..n], registries[..n])
      + if members[n] in registries[n] then [registries[n][members[n]]] else []
  }

  function Lookups<U>(registryAt: nat -> map<string, U>, n: nat): (r: seq<map<string, U>>)
    ensures |r| == n && forall i :: 0 <= i < n ==> r[i] == registryAt(i)
  {
    seq(n, i requires 0 <= i => registryAt(i))
  }

  method DeliverEach<U>(members: seq<string>, registryAt: nat -> map<string, U>) returns (offered: seq<U>)
    ensures offered == OffersEach(members, Lookups(registryAt, |members|))
  {
    offered := [];
    for i := 0 to |members|
      invariant offered == OffersEach(members[..i], Lookups(registryAt, i))
    {
      assert members[..i + 1][..i] == members[..i];
      assert Lookups(registryAt, i + 1)[..i] == Lookups(registryAt, i);
      var registry := registryAt(i);
      if members[i] in registry {
        offered := offered + [registry[members[i]]];
      }
    }
    assert members[..|members|] == members;
  }

  function Copies<U(==)>(offered: seq<U>, u: U): nat {
    if offered == [] then 0
    else Copies(offered[..|offered| - 1], u) + if offered[|offered| - 1] == u then 1 else 0
  }

  ghost predicate Distinct(names: seq<string>) {
    forall i, j :: 0 <= i < j < |names| ==> names[i] != names[j]
  }

  /** Somebody found under a member's name gets one copy, everybody else none. */
  lemma {:induction false} OneCopyEach<U(!new)>(members: seq<string>, registry: map<string, U>, k: string)
    requires Distinct(members) && Registry.Injective(registry) && k in registry
    ensures Copies(Offers(members, registry), registry[k]) == if k in members then 1 else 0
  {
    if members != [] {
      var n := |members| - 1;
      var rest, last := members[..n], members[n];
      OneCopyEach(rest, registry, k);
      assert members == rest + [last];
      if last in registry {
        CopiesOfAppend(Offers(rest, registry), registry[last], registry[k]);
      } else {
        assert Offers(rest, registry) + [] == Offers(rest, registry);
      }
    }
  }

  lemma CopiesOfAppend<U>(offered: seq<U>, x: U, u: U)
    ensures Copies(offered + [x], u) == Copies(offered, u) + if x == u then 1 else 0
  {
    assert (offered + [x])[..|offered|] == offered;
  }

  // ----- Delivery while the registry changes

  /** The lookup under a name finds the same client, or no client, in both registries. */
  ghost predicate Agree<U>(r: map<string, U>, s: map<string, U>, name: string) {
    (name in r <==> name in s) && (name in r ==> r[name] == s[name])
  }

  /** Changes to names other than the one being looked up make no difference. */
  lemma {:induction false} UnrelatedChangesDoNotMatter<U>(members: seq<string>, registries: seq<map<string, U>>,
                                                          registry: map<string, U>)
    requires |registries| == |members|
    requires forall i :: 0 <= i < |members| ==> Agree(registries[i], registry, members[i])
    ensures OffersEach(members, registries) == Offers(members, registry)
  {
    if members != [] {
      var n := |members| - 1;
      UnrelatedChangesDoNotMatter(members[..n], registries[..n], registry);
    }
  }

  /** The lookup of member i finds client c. */
  ghost predicate FoundAt<U>(members: seq<string>, registries: seq<map<string, U>>, c: U, i: nat)
    requires |registries| == |members| && i < |members|
  {
    members[i] in registries[i] && registries[i][members[i]] == c
  }

  lemma LastLookup<U>(members: seq<string>, registries: seq<map<string, U>>, c: U)
    requires |registries| == |members| && members != []
    ensures var n := |members| - 1;
            && Copies(OffersEach(members, registries), c)
            == Copies(OffersEach(members[..n], registries[..n]), c)
               + if FoundAt(members, registries, c, n) then 1 else 0
  {
    var n := |members| - 1;
    var rest := OffersEach(members[..n], registries[..n]);
    if members[n] in registries[n] {
      CopiesOfAppend(rest, registries[n][members[n]], c);
    } else {
      assert rest + [] == rest;
    }
  }

  /** A client is offered a copy iff some lookup finds it. */
  lemma {:induction false} SomeCopyIff<U>(members: seq<string>, registries: seq<map<string, U>>, c: U)
    requires |registries| == |members|
    ensures Copies(OffersEach(members, registries), c) >= 1
       <==> exists i :: 0 <= i < |members| && FoundAt(members, registries, c, i)
  {
    if members != [] {
      var n := |members| - 1;
      LastLookup(members, registries, c);
      SomeCopyIff(members[..n], registries[..n], c);
      assert forall i :: 0 <= i < n ==>
          FoundAt(members[..n], registries[..n], c, i) == FoundAt(members, registries, c, i);
    }
  }

  /** It is offered more than one iff two lookups find it, and then under two members' names. */
  lemma {:induction false} TwoCopiesIff<U>(members: seq<string>, registries: seq<map<string, U>>, c: U)
    requires |registries| == |members| && Distinct(members)
    ensures Copies(OffersEach(members, registries), c) >= 2
       <==> exists i, j :: 0 <= i < j < |members| && members[i] != members[j]
                           && FoundAt(members, registries, c, i) && FoundAt(members, registries, c, j)
  {
    if members != [] {
      var n := |members| - 1;
      LastLookup(members, registries, c);
      SomeCopyIff(members[..n], registries[..n], c);
      TwoCopiesIff(members[..n], registries[..n], c);
      assert forall i :: 0 <= i < n ==>
          FoundAt(members[..n], registries[..n], c, i) == FoundAt(members, registries, c, i);
    }
  }

  /** Whenever client c is registered during the delivery, it is under the name k. */
  ghost predicate KeepsName<U>(registries: seq<map<string, U>>, c: U, k: string) {
    forall i, x :: 0 <= i < |registries| && x in registries[i] && registries[i][x] == c ==> x == k
  }

  /** Whatever else comes and goes, a client that keeps its name is offered one copy if found at all. */
  lemma {:induction false} OneCopyIfNameKept<U>(members: seq<string>, registries: seq<map<string, U>>, c: U, k: string)
    requires |registries| == |members| && Distinct(members) && KeepsName(registries, c, k)
    ensures Copies(OffersEach(members, registries), c)
         == if exists i :: 0 <= i < |members| && FoundAt(members, registries, c, i) then 1 else 0
  {
    SomeCopyIff(members, registries, c);
    TwoCopiesIff(members, registries, c);
  }

  /** A client renamed from one member's name to the next one's between the two lookups gets two copies. */
  lemma RenameDuringDelivery<U>(registry: map<string, U>, a: string, b: string)
    requires Registry.CanRename(registry, a, b)
    ensures Distinct([a, b])
    ensures OffersEach([a, b], [registry, Registry.Renamed(registry, a, b)]) == [registry[a], registry[a]]
    ensures Copies(OffersEach([a, b], [registry, Registry.Renamed(registry, a, b)]), registry[a]) == 2
  {
    var renamed := Registry.Renamed(registry, a, b);
    assert [a, b][..1] == [a] && [a][..0] == [];
    assert [registry, renamed][..1] == [registry] && [registry][..0] == [];
    assert OffersEach([a], [registry]) == [registry[a]];
    CopiesOfAppend([registry[a]], registry[a], registry[a]);
    CopiesOfAppend([], registry[a], registry[a]);
    assert [] + [registry[a]] == [registry[a]];
  }

  /**
   After any history of actions, a WebSocket client that keeps its name k during the delivery is offered
   at most one copy: none unless k belongs to the group, and one if it does and the client is registered
   when k is looked up.
   */
  lemma {:induction false} GroupMessageReachesClients<U>(actions: seq<Action>, group: string, members: seq<string>,
                                                         registries: seq<map<string, U>>, c: U, k: string)
    requires Distinct(members) && forall n :: n in members <==> IsMember(After(actions), n, group)
    requires |registries| == |members| && KeepsName(registries, c, k)
    ensures Copies(OffersEach(members, registries), c)
         == if exists i :: 0 <= i < |members| && members[i] == k && FoundAt(members, registries, c, i) then 1 else 0
    ensures !Belongs(actions, k, group) ==> Copies(OffersEach(members, registries), c) == 0
    ensures && Belongs(actions, k, group)
            && (forall i :: 0 <= i < |registries| ==> k in registries[i] && registries[i][k] == c)
        ==> Copies(OffersEach(members, registries), c) == 1
  {
    OneCopyIfNameKept(members, registries, c, k);
    MembershipFollowsHistory(actions, k, group);
    assert forall i :: 0 <= i < |members| && FoundAt(members, registries, c, i) ==> members[i] == k;
    if Belongs(actions, k, group) {
      var i :| 0 <= i < |members| && members[i] == k;
    }
  }

  /**
   After any history of actions and any run of connections, a group message is offered once to each
   connection registered under the name of a member, and to no other.
   */
  lemma {:induction false} GroupMessageReachesMembers(actions: seq<Action>, group: string, members: seq<string>,
                                                      steps: seq<Presence.Step>, u: nat)
    requires Distinct(members) && forall n :: n in members <==> IsMember(After(actions), n, group)
    requires Presence.IsRun(steps)
    ensures var online := Presence.After(steps).online;
            Copies(Offers(members, online), u) ==
            if exists k :: k in online && online[k] == u && Belongs(actions, k, group) then 1 else 0
  {
    var online := Presence.After(steps).online;
    Presence.RegistryIsInjective(steps);
    if k :| k in online && online[k] == u {
      OneCopyEach(members, online, k);
      MembershipFollowsHistory(actions, k, group);
    } else {
      NoCopies(members, online, u);
    }
  }

  /** With a right registry those are the live connections whose own names belong to the group. */
  lemma {:induction false} LiveMembersGetOneCopy(actions: seq<Action>, group: string, members: seq<string>,
                                                 steps: seq<Presence.Step>, u: nat)
    requires Distinct(members) && forall n :: n in members <==> IsMember(After(actions), n, group)
    requires Presence.IsRun(steps) && Presence.Exact(Presence.After(steps)) && u in Presence.After(steps).conns
    ensures var st := Presence.After(steps);
            Copies(Offers(members, st.online), u) ==
            if Presence.Live(st.conns[u]) && Belongs(actions, Presence.Key(st.conns[u]), group) then 1 else 0
  {
    GroupMessageReachesMembers(actions, group, members, steps, u);
  }

  lemma {:induction false} NoCopies<U(!new)>(members: seq<string>, registry: map<string, U>, u: U)
    requires forall k :: k in registry ==> registry[k] != u
    ensures Copies(Offers(members, registry), u) == 0
  {
    if members != [] {
      var n := |members| - 1;
      NoCopies(members[..n], registry, u);
      if members[n] in registry {
        CopiesOfAppend(Offers(members[..n], registry), registry[members[n]], u);
      } else {
        assert Offers(members[..n], registry) + [] == Offers(members[..n], registry);
      }
    }
  }
}
