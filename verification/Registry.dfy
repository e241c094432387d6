/**
 The two registries of internal/server/server.go: OnlineMap for TCP users and WSConns for WebSocket
 clients.  Each method is one critical section; what it does to a map is a function of the old map,
 which module Presence reuses to interleave the steps of many connections.
 */
module Registry {

  // ----- OnlineMap, as a function of the old map

  /** Online: drop the user's other keys, then register it under its name. */
  function OnlineAt<U(==)>(m: map<string, U>, name: string, u: U): map<string, U> {
    (map k | k in m && !(m[k] == u && k != name) :: m[k])[name := u]
  }

  /** Offline: drop every key of the user. */
  function OfflineOf<U(==)>(m: map<string, U>, u: U): map<string, U> {
    map k | k in m && m[k] != u :: m[k]
  }

  predicate CanRename<U>(m: map<string, U>, oldName: string, newName: string) {
    newName !in m && oldName in m
  }

  function Renamed<U>(m: map<string, U>, oldName: string, newName: string): map<string, U>
    requires CanRename(m, oldName, newName)
  {
    (m - {oldName})[newName := m[oldName]]
  }

  /** No two keys lead to the same connection. */
  ghost predicate Injective<U(!new)>(m: map<string, U>) {
    forall k, l :: k in m && l in m && m[k] == m[l] ==> k == l
  }

  class User {
    var name: string
    var avatar: string

    constructor (addr: string)
      ensures name == addr && avatar == ""
    {
      name, avatar := addr, "";
    }
  }

  class WSClient {
    var name: string
    const avatar: string
    var cancelled: bool

    constructor (name: string, avatar: string)
      ensures this.name == name && this.avatar == avatar && !cancelled
    {
      this.name, this.avatar, cancelled := name, avatar, false;
    }
  }

  datatype OnlineUser = OnlineUser(name: string, avatar: string)

  class Server {
    var onlineMap: map<string, User>
    var wsConns: map<string, WSClient>

    constructor ()
      ensures onlineMap == map[] && wsConns == map[] && WsValid()
    {
      onlineMap, wsConns := map[], map[];
    }

    // ----- TCP users

    method Online(u: User)
      modifies this`onlineMap
      ensures onlineMap == OnlineAt(old(onlineMap), u.name, u)
      ensures u.name in onlineMap && onlineMap[u.name] == u
      ensures forall k :: k != u.name ==> (k in onlineMap <==> k in old(onlineMap) && old(onlineMap)[k] != u)
      ensures forall k :: k != u.name && k in onlineMap ==> onlineMap[k] == old(onlineMap)[k]
    {
      var pending := onlineMap.Keys;
      while pending != {}
        invariant pending <= onlineMap.Keys <= old(onlineMap).Keys
        invariant onlineMap ==
                  map k | k in old(onlineMap) && (k in pending || !(old(onlineMap)[k] == u && k != u.name))
                    :: old(onlineMap)[k]
      {
        var key :| key in pending;
        if onlineMap[key] == u && key != u.name {
          onlineMap := onlineMap - {key};
        }
        pending := pending - {key};
      }
      onlineMap := onlineMap[u.name := u];
    }

    method Offline(u: User)
      modifies this`onlineMap
      ensures onlineMap == OfflineOf(old(onlineMap), u)
      ensures forall k :: k in onlineMap <==> k in old(onlineMap) && old(onlineMap)[k] != u
      ensures forall k :: k in onlineMap ==> onlineMap[k] == old(onlineMap)[k]
    {
      var pending := onlineMap.Keys;
      while pending != {}
        invariant pending <= onlineMap.Keys <= old(onlineMap).Keys
        invariant onlineMap ==
                  map k | k in old(onlineMap) && (k in pending || old(onlineMap)[k] != u) :: old(onlineMap)[k]
      {
        var key :| key in pending;
        if onlineMap[key] == u {
          onlineMap := onlineMap - {key};
        }
        pending := pending - {key};
      }
    }

    method RenameUser(oldName: string, newName: string) returns (ok: bool)
      modifies this`onlineMap
      ensures ok <==> newName !in old(onlineMap) && oldName in old(onlineMap)
      ensures ok ==> onlineMap.Keys == old(onlineMap).Keys - {oldName} + {newName}
      ensures ok ==> onlineMap[newName] == old(onlineMap)[oldName]
      ensures forall k :: ok && k in old(onlineMap) && k != oldName ==> onlineMap[k] == old(onlineMap)[k]
      ensures onlineMap == if ok then Renamed(old(onlineMap), oldName, newName) else old(onlineMap)
    {
      if newName in onlineMap {
        return false;
      }
      if oldName !in onlineMap {
        return false;
      }
      var user := onlineMap[oldName];
      onlineMap := onlineMap - {oldName};
      onlineMap := onlineMap[newName := user];
      return true;
    }

    // ----- WebSocket clients

    /** Every client is registered under its own name. */
    ghost predicate WsValid()
      reads this, wsConns.Values
    {
      forall k :: k in wsConns ==> wsConns[k].name == k
    }

    method AddWSClient(client: WSClient)
      requires WsValid()
      modifies this`wsConns
      ensures WsValid()
      ensures wsConns == old(wsConns)[client.name := client]
    {
      wsConns := wsConns[client.name := client];
    }

    method RemoveWSClient(name: string)
      requires WsValid()
      modifies this`wsConns, wsConns.Values`cancelled
      ensures WsValid()
      ensures wsConns == old(wsConns) - {name}
      ensures forall k :: k in old(wsConns) ==>
                old(wsConns)[k].cancelled == (old(wsConns[k].cancelled) || k == name)
    {
      if name in wsConns {
        wsConns[name].cancelled := true;
        wsConns := wsConns - {name};
      }
    }

    /** The client moves to its new key and takes the new name in the same critical section. */
    method RenameWSClient(oldName: string, newName: string) returns (ok: bool)
      requires WsValid()
      modifies this`wsConns, wsConns.Values`name
      ensures WsValid()
      ensures ok <==> newName !in old(wsConns) && oldName in old(wsConns)
      ensures ok ==> wsConns.Keys == old(wsConns).Keys - {oldName} + {newName}
      ensures ok ==> wsConns[newName] == old(wsConns)[oldName]
      ensures forall k :: ok && k in old(wsConns) && k != oldName ==> wsConns[k] == old(wsConns)[k]
      ensures wsConns == if ok then Renamed(old(wsConns), oldName, newName) else old(wsConns)
      ensures forall k :: k in old(wsConns) && !(ok && k == oldName) ==> old(wsConns)[k].name == k
    {
      if newName in wsConns {
        return false;
      }
      if oldName !in wsConns {
        return false;
      }
      var client := wsConns[oldName];
      wsConns := wsConns - {oldName};
      client.name := newName;
      wsConns := wsConns[newName := client];
      return true;
    }

    // ----- The list of people online

    ghost predicate TcpHas(name: string, avatar: string)
      reads this, onlineMap.Values
    {
      exists k :: k in onlineMap && onlineMap[k].name == name && onlineMap[k].avatar == avatar
    }

    /** The first critical section: every TCP user's name once, with the avatar of a user of that name. */
    method ListTcp() returns (users: seq<OnlineUser>, seen: set<string>)
      ensures Listed(users, seen)
      ensures seen == set k | k in onlineMap :: onlineMap[k].name
      ensures forall i :: 0 <= i < |users| ==> TcpHas(users[i].name, users[i].avatar)
    {
      users, seen := [], {};
      var done: set<string> := {};
      while done != onlineMap.Keys
        invariant done <= onlineMap.Keys
        invariant Listed(users, seen)
        invariant seen == set k | k in done :: onlineMap[k].name
        invariant forall i :: 0 <= i < |users| ==> TcpHas(users[i].name, users[i].avatar)
        decreases onlineMap.Keys - done
      {
        var key :| key in onlineMap && key !in done;
        var u := onlineMap[key];
        if u.name !in seen {
          ListedAppend(users, seen, OnlineUser(u.name, u.avatar));
          seen := seen + {u.name};
          users := users + [OnlineUser(u.name, u.avatar)];
        }
        done := done + {key};
      }
    }

    /** The second: WebSocket clients whose name has not been seen, after whatever the first has listed. */
    method ListWs(tcp: seq<OnlineUser>, tcpNames: set<string>) returns (users: seq<OnlineUser>, seen: set<string>)
      requires Listed(tcp, tcpNames)
      ensures Listed(users, seen) && tcp <= users
      ensures seen == tcpNames + wsConns.Keys
      ensures forall i :: |tcp| <= i < |users| ==>
                && users[i].name !in tcpNames
                && users[i].name in wsConns && wsConns[users[i].name].avatar == users[i].avatar
    {
      users, seen := tcp, tcpNames;
      var done: set<string> := {};
      while done != wsConns.Keys
        invariant done <= wsConns.Keys
        invariant Listed(users, seen) && tcp <= users && seen == tcpNames + done
        invariant forall i :: |tcp| <= i < |users| ==>
                    && users[i].name !in tcpNames && users[i].name in wsConns
                    && wsConns[users[i].name].avatar == users[i].avatar
        decreases wsConns.Keys - done
      {
        var name :| name in wsConns && name !in done;
        if name !in seen {
          ListedAppend(users, seen, OnlineUser(name, wsConns[name].avatar));
          seen := seen + {name};
          users := users + [OnlineUser(name, wsConns[name].avatar)];
        }
        done := done + {name};
      }
    }
  }

  /** Pairwise distinct names, and exactly the given ones. */
  ghost predicate Listed(users: seq<OnlineUser>, names: set<string>) {
    && (forall i, j :: 0 <= i < j < |users| ==> users[i].name != users[j].name)
    && (forall i :: 0 <= i < |users| ==> users[i].name in names)
    && (forall n :: n in names ==> exists i :: 0 <= i < |users| && users[i].name == n)
  }

  lemma ListedAppend(users: seq<OnlineUser>, names: set<string>, u: OnlineUser)
    requires Listed(users, names) && u.name !in names
    ensures Listed(users + [u], names + {u.name})
  {
    var more := users + [u];
    forall n | n in names + {u.name}
      ensures exists i :: 0 <= i < |more| && more[i].name == n
    {
      if n == u.name {
        assert more[|users|].name == n;
      } else {
        var i :| 0 <= i < |users| && users[i].name == n;
        assert more[i].name == n;
      }
    }
  }

  /**
   GetOnlineUsers: first and second are the server as its two critical sections find it, one after the
   other; what happens to either registry in between is left open.
   */
  method GetOnlineUsers(first: Server, second: Server) returns (users: seq<OnlineUser>)
    ensures Listed(users, (set k | k in first.onlineMap :: first.onlineMap[k].name) + second.wsConns.Keys)
    ensures forall i :: 0 <= i < |users| ==>
              || first.TcpHas(users[i].name, users[i].avatar)
              || (&& users[i].name !in (set k | k in first.onlineMap :: first.onlineMap[k].name)
                  && users[i].name in second.wsConns
                  && second.wsConns[users[i].name].avatar == users[i].avatar)
  {
    var tcp, names := first.ListTcp();
    var seen;
    users, seen := second.ListWs(tcp, names);
    assert forall i :: 0 <= i < |tcp| ==> users[i] == tcp[i];
  }
}
