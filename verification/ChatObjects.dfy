/**
 The chat server as an object whose methods update its maps in place, with the
 loops over members, sessions and channels.  Each method is proved equal to the
 corresponding function of ChatServer.
 */
module ChatObjects {
  import opened Common
  import opened Wrappers
  import opened Roster
  import opened ChatServer
  import opened ChatInvariants
  import opened ChatTheorems

  class ChatHost {
    const userTable: set<string>
    var sessions: Sessions
    var chans: map<nat, Chan>
    var registry: map<string, nat>
    var nextChan: nat

    ghost function View(): Server
      reads this
    {
      Server(sessions, chans, registry, nextChan)
    }

    constructor (db: set<string>)
      ensures View() == Empty() && userTable == db
    {
      userTable := db;
      sessions, chans, registry, nextChan := map[], map[], map[], 0;
    }

    method SendPacket(id: nat, n: Note)
      modifies this`sessions
      ensures sessions == PushTo(old(sessions), id, n)
    {
      if id in sessions && sessions[id].open {
        sessions := sessions[id := sessions[id].(out := sessions[id].out + [n])];
      } else if id in sessions {
        assert sessions[id := sessions[id]] == sessions;
      }
    }

    method SendToAllButOne(members: seq<nat>, n: Note, except: nat)
      requires NoDuplicates(members)
      modifies this`sessions
      ensures sessions == Broadcast(old(sessions), members, except, n)
    {
      ghost var before := sessions;
      assert Broadcast(before, members[..0], except, n) == before;
      for i := 0 to |members|
        invariant sessions == Broadcast(before, members[..i], except, n)
      {
        var k := members[i];
        BroadcastNext(before, members, i, except, n);
        if k != except {
          SendPacket(k, n);
        }
      }
      assert members[..|members|] == members;
    }

    /** The names are read session by session while the packet is filled. */
    method SendUsersList(members: seq<nat>, to: nat)
      modifies this`sessions
      ensures sessions == PushTo(old(sessions), to, Users(NamesOf(old(sessions), members)))
    {
      var names: seq<string> := [];
      for i := 0 to |members|
        invariant names == NamesOf(sessions, members[..i])
        invariant sessions == old(sessions)
      {
        var k := members[i];
        names := names + [if k in sessions then sessions[k].name else ""];
      }
      assert members[..|members|] == members;
      SendPacket(to, Users(names));
    }

    method SetChannel(id: nat, c: Option<nat>)
      requires id in sessions
      modifies this`sessions
      ensures sessions == old(sessions)[id := old(sessions)[id].(chan := c)]
    {
      sessions := sessions[id := sessions[id].(chan := c)];
    }

    /** Channel::AddSession, then setChannel. */
    method EnterChannel(id: nat, c: nat)
      requires id in sessions && c in chans && NoDuplicates(chans[c].members)
      modifies this
      ensures View() == Enter(old(View()), id, c)
    {
      var members := chans[c].members;
      if id !in members {
        members := members + [id];
        chans := chans[c := chans[c].(members := members)];
      } else {
        assert chans[c := chans[c].(members := members)] == chans;
      }
      SendToAllButOne(members, Joined(sessions[id].name), id);
      ghost var told := sessions;
      assert NamesOf(told, members) == NamesOf(old(sessions), members);
      SendUsersList(members, id);
      SetChannel(id, Some(c));
    }

    /** Channel::RemoveSession, then setChannel(NULL). */
    method ExitChannel(id: nat)
      requires id in sessions && MembersInv(View())
      modifies this
      ensures View() == Exit(old(View()), id)
    {
      assert PointsToOwn(View(), id);
      ghost var before := View();
      if sessions[id].chan.Some? {
        var c := sessions[id].chan.value;
        var members := Without(chans[c].members, id);
        WithoutSpec(chans[c].members, id);
        chans := chans[c := chans[c].(members := members)];
        SendToAllButOne(members, Left(sessions[id].name), id);
        ghost var told := sessions;
        SendPacket(id, Users([]));
        SetChannel(id, None);
        assert sessions == told[id := Push(told[id], Users([])).(chan := None)];
        assert View() == Exit(before, id);
      }
    }

    /** FindSession by name: any session in the map counts, whatever its state. */
    method FindSession(name: string) returns (found: bool)
      ensures found <==> NameInUse(sessions, name)
    {
      var rest := sessions.Keys;
      while rest != {}
        invariant rest <= sessions.Keys
        invariant forall k :: k in sessions && k !in rest ==> sessions[k].name != name
        decreases |rest|
      {
        var k :| k in rest;
        if sessions[k].name == name {
          return true;
        }
        rest := rest - {k};
      }
      found := false;
    }

    method NewChannel(name: string, pass: string)
      modifies this`chans, this`registry, this`nextChan
      ensures View() == Register(old(View()), name, pass)
    {
      chans := chans[nextChan := Chan(name, pass, [])];
      registry := registry[name := nextChan];
      nextChan := nextChan + 1;
    }

    method HandleJoinChannel(id: nat, name: string, pass: string)
      requires Core(userTable, View()) && LoggedIn(View(), id)
      modifies this
      ensures View() == Join(old(View()), id, name, pass)
    {
      if name == "" || name !in registry {
        SendPacket(id, SystemText);
        return;
      }
      var c := registry[name];
      if chans[c].pass != pass {
        SendPacket(id, SystemText);
        return;
      }
      ExitKeeps(userTable, View(), id);
      ExitChannel(id);
      EnterChannel(id, c);
      SendPacket(id, SystemText);
    }

    method HandleCreateChannel(id: nat, name: string, pass: string)
      requires Core(userTable, View()) && LoggedIn(View(), id)
      modifies this
      ensures View() == Create(old(View()), id, name, pass)
    {
      if name == DEFAULT || (name != "" && name in registry) {
        SendPacket(id, SystemText);
        return;
      }
      var c := nextChan;
      ghost var fresh' := Register(View(), name, pass);
      RegisterKeeps(userTable, View(), name, pass);
      NewChannel(name, pass);
      ExitKeeps(userTable, fresh', id);
      ExitChannel(id);
      EnterChannel(id, c);
      SendPacket(id, SystemText);
    }

    method HandleLeaveChannel(id: nat)
      requires Core(userTable, View()) && LoggedIn(View(), id)
      modifies this
      ensures View() == Tell(Exit(old(View()), id), id)
    {
      ExitChannel(id);
      SendPacket(id, SystemText);
    }

    method JoinDefaultChannel(id: nat)
      requires Core(userTable, View()) && id in sessions
      modifies this
      ensures View() == JoinDefault(old(View()), id)
    {
      if DEFAULT !in registry {
        RegisterKeeps(userTable, View(), DEFAULT, NO_PASSWORD);
        NewChannel(DEFAULT, NO_PASSWORD);
      }
      EnterChannel(id, registry[DEFAULT]);
      SendPacket(id, SystemText);
    }

    /** The login's last step: look the name up and take it, in one go. */
    method FinishLogin(id: nat, testOk: bool)
      requires Core(userTable, View()) && Live(View(), id) && sessions[id].status == LoginStep2
      modifies this
      ensures View() == Login(userTable, old(View()), id, "", true, testOk)
    {
      var s := sessions[id];
      assert PointsToOwn(View(), id) && NameFits(userTable, s);
      var taken := true;
      if testOk {
        taken := FindSession(s.temp);
      }
      if taken {
        sessions := sessions[id := s.(status := Rejected, open := false)];
      } else {
        assert s.temp != "";
        ghost var sv1 := SetSess(View(), id, SetUsername(s).(status := Authenticated));
        SetSessKeeps(userTable, View(), id, SetUsername(s).(status := Authenticated));
        sessions := sessions[id := s.(name := s.temp, status := Authenticated)];
        assert View() == sv1;
        JoinDefaultChannel(id);
      }
    }

    /** The sweep over a snapshot of the registry. */
    method UpdateChannels()
      requires RegistryInv(View())
      modifies this`registry
      ensures View() == SweepChannels(old(View()))
    {
      ghost var before := View();
      var rest := registry.Keys;
      while rest != {}
        invariant rest <= before.registry.Keys
        invariant registry == map n | n in before.registry && (n in rest || Kept(before, before.registry[n])) :: before.registry[n]
        decreases |rest|
      {
        var n :| n in rest;
        rest := rest - {n};
        var c := registry[n];
        if chans[c].members == [] && chans[c].name != DEFAULT {
          registry := registry - {n};
        }
      }
    }

    /** A closed session leaves its channel and the map. */
    method RemoveSession(id: nat)
      requires Core(userTable, View()) && id in sessions && !sessions[id].open
      modifies this
      ensures View() == Step(userTable, old(View()), Drop(id))
    {
      ExitChannel(id);
      sessions := sessions - {id};
    }
  }

  lemma {:induction false} BroadcastNext(ss: Sessions, members: seq<nat>, i: nat, except: nat, n: Note)
    requires i < |members| && NoDuplicates(members)
    ensures var sent := Broadcast(ss, members[..i], except, n);
      Broadcast(ss, members[..i + 1], except, n) == if members[i] != except then PushTo(sent, members[i], n) else sent
  {
    assert members[i] !in members[..i];
    assert members[..i + 1] == members[..i] + [members[i]];
  }
}
