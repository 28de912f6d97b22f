/**
 Every run of the chat server, and the exact conditions on the user table and on
 channel names.
 */
module ChatTheorems {
  import opened Common
  import opened Wrappers
  import opened Roster
  import opened ChatServer
  import opened ChatInvariants

  // ---------- steps that keep the core invariants ----------

  lemma {:induction false} TellKeeps(db: set<string>, sv: Server, id: nat)
    requires Core(db, sv)
    ensures Core(db, Tell(sv, id)) && SameNames(sv.sessions, Tell(sv, id).sessions)
    ensures OccupiedRegistered(sv) ==> OccupiedRegistered(Tell(sv, id))
  {
    TellMembers(sv, id);
  }

  lemma {:induction false} TellMembers(sv: Server, id: nat)
    requires MembersInv(sv)
    ensures MembersInv(Tell(sv, id)) && SameNames(sv.sessions, Tell(sv, id).sessions)
  {
    var next := Tell(sv, id);
    forall k | k in next.sessions
      ensures PointsToOwn(next, k)
    {
      assert PointsToOwn(sv, k);
    }
  }

  lemma {:induction false} TellRosters(sv: Server, id: nat)
    requires RostersExact(sv)
    ensures RostersExact(Tell(sv, id))
  {
    var next := Tell(sv, id);
    forall k | k in next.sessions && next.sessions[k].open
      ensures RosterExact(next, k)
    {
      assert RosterExact(sv, k);
      ReplaySnoc(sv.sessions[k].out, SystemText);
      if sv.sessions[k].chan.Some? && sv.sessions[k].chan.value in sv.chans {
        NamesOfSame(sv.sessions, next.sessions, sv.chans[sv.sessions[k].chan.value].members);
      }
    }
  }

  lemma {:induction false} RegisterKeeps(db: set<string>, sv: Server, name: string, pass: string)
    requires Core(db, sv)
    ensures Core(db, Register(sv, name, pass))
  {
    var next := Register(sv, name, pass);
    forall k | k in next.sessions
      ensures PointsToOwn(next, k)
    {
      assert PointsToOwn(sv, k);
    }
  }

  lemma {:induction false} RegisterRosters(db: set<string>, sv: Server, name: string, pass: string)
    requires Core(db, sv) && RostersExact(sv)
    ensures RostersExact(Register(sv, name, pass))
  {
    var next := Register(sv, name, pass);
    forall k | k in next.sessions && next.sessions[k].open
      ensures RosterExact(next, k)
    {
      assert RosterExact(sv, k) && PointsToOwn(sv, k);
      assert MemberNames(next, k) == MemberNames(sv, k);
    }
  }

  /** Replacing a session that is in no channel. */
  lemma {:induction false} SetSessKeeps(db: set<string>, sv: Server, id: nat, s: Sess)
    requires Core(db, sv) && s.chan == None && (id in sv.sessions ==> sv.sessions[id].chan == None)
    requires NameFits(db, s)
    requires forall k :: k in sv.sessions && k != id && s.name != "" ==> sv.sessions[k].name != s.name
    ensures Core(db, SetSess(sv, id, s))
    ensures OccupiedRegistered(sv) ==> OccupiedRegistered(SetSess(sv, id, s))
  {
    var next := SetSess(sv, id, s);
    forall k | k in next.sessions
      ensures PointsToOwn(next, k)
    {
      if k != id {
        assert PointsToOwn(sv, k);
      }
    }
  }

  lemma {:induction false} SetSessRosters(db: set<string>, sv: Server, id: nat, s: Sess)
    requires Core(db, sv) && s.chan == None && (id in sv.sessions ==> sv.sessions[id].chan == None)
    requires RostersExact(sv)
    requires s.open ==> (if id in sv.sessions then sv.sessions[id].open && s.out == sv.sessions[id].out else s.out == [])
    ensures RostersExact(SetSess(sv, id, s))
  {
    var next := SetSess(sv, id, s);
    forall k | k in next.sessions && next.sessions[k].open
      ensures RosterExact(next, k)
    {
      if k != id || id in sv.sessions {
        assert RosterExact(sv, k) && PointsToOwn(sv, k);
      }
      assert k != id ==> MemberNames(next, k) == MemberNames(sv, k) by {
        if k != id && sv.sessions[k].chan.Some? {
          var members := sv.chans[sv.sessions[k].chan.value].members;
          assert id !in members;
          assert NamesOf(next.sessions, members) == NamesOf(sv.sessions, members);
        }
      }
    }
  }

  // ---------- the composite operations ----------

  /** A step that keeps the core and, where they held, the registration and the rosters. */
  ghost predicate Keeps(db: set<string>, sv: Server, next: Server) {
    && Core(db, next)
    && (OccupiedRegistered(sv) ==> OccupiedRegistered(next))
    && (CaseDistinct(Usable(db)) && RostersExact(sv) ==> RostersExact(next))
  }

  lemma {:induction false} MoveKeeps(db: set<string>, sv: Server, id: nat, c: nat)
    requires Core(db, sv) && id in sv.sessions && c in sv.chans && sv.sessions[id].status == Authenticated
    ensures var next := Tell(Enter(Exit(sv, id), id, c), id);
      && Core(db, next) && SameNames(sv.sessions, next.sessions)
      && (CaseDistinct(Usable(db)) && RostersExact(sv) ==> RostersExact(next))
  {
    ExitKeeps(db, sv, id);
    var sv1 := Exit(sv, id);
    EnterKeeps(db, sv1, id, c);
    var sv2 := Enter(sv1, id, c);
    TellKeeps(db, sv2, id);
    if CaseDistinct(Usable(db)) && RostersExact(sv) {
      ExitRosters(db, sv, id);
      EnterRosters(db, sv1, id, c);
      TellRosters(sv2, id);
    }
  }

  /** A move into a registered channel leaves no occupied channel unregistered. */
  lemma {:induction false} MoveRegistered(db: set<string>, sv: Server, id: nat, c: nat)
    requires Core(db, sv) && id in sv.sessions && c in sv.chans && sv.sessions[id].status == Authenticated
    requires OccupiedRegistered(Exit(sv, id))
    requires sv.chans[c].name in sv.registry && sv.registry[sv.chans[c].name] == c
    ensures OccupiedRegistered(Tell(Enter(Exit(sv, id), id, c), id))
  {
    ExitKeeps(db, sv, id);
    ExitShape(sv, id);
    EnterKeeps(db, Exit(sv, id), id, c);
    TellKeeps(db, Enter(Exit(sv, id), id, c), id);
  }

  lemma {:induction false} JoinKeeps(db: set<string>, sv: Server, id: nat, name: string, pass: string)
    requires Core(db, sv) && LoggedIn(sv, id)
    ensures Keeps(db, sv, Join(sv, id, name, pass))
  {
    if name == "" || name !in sv.registry || sv.chans[sv.registry[name]].pass != pass {
      TellKeeps(db, sv, id);
      if RostersExact(sv) {
        TellRosters(sv, id);
      }
    } else {
      MoveKeeps(db, sv, id, sv.registry[name]);
      if OccupiedRegistered(sv) {
        ExitKeeps(db, sv, id);
        MoveRegistered(db, sv, id, sv.registry[name]);
      }
    }
  }

  lemma {:induction false} CreateKeeps(db: set<string>, sv: Server, id: nat, name: string, pass: string)
    requires Core(db, sv) && LoggedIn(sv, id)
    ensures var next := Create(sv, id, name, pass);
      && Core(db, next) && SameNames(sv.sessions, next.sessions)
      && (CaseDistinct(Usable(db)) && RostersExact(sv) ==> RostersExact(next))
  {
    if name == DEFAULT || (name != "" && name in sv.registry) {
      TellKeeps(db, sv, id);
      if RostersExact(sv) {
        TellRosters(sv, id);
      }
    } else {
      RegisterKeeps(db, sv, name, pass);
      if RostersExact(sv) {
        RegisterRosters(db, sv, name, pass);
      }
      MoveKeeps(db, Register(sv, name, pass), id, sv.nextChan);
    }
  }

  /** Creating under the empty name takes the registration from the channel that holds it. */
  predicate CreateSafe(sv: Server, id: nat, name: string) {
    name != "" || "" !in sv.registry || sv.registry[""] !in sv.chans
    || forall k :: k in sv.chans[sv.registry[""]].members ==> k == id
  }

  /**
   Creating a channel keeps every occupied channel registered under its own name if
   and only if the name is not empty or nobody else is in the channel that holds it.
   */
  lemma {:induction false} CreateExact(db: set<string>, sv: Server, id: nat, name: string, pass: string)
    requires Core(db, sv) && OccupiedRegistered(sv) && LoggedIn(sv, id)
    ensures OccupiedRegistered(Create(sv, id, name, pass)) <==> CreateSafe(sv, id, name)
  {
    if name == DEFAULT || (name != "" && name in sv.registry) {
      TellKeeps(db, sv, id);
    } else {
      var sv1 := Register(sv, name, pass);
      RegisterKeeps(db, sv, name, pass);
      ExitShape(sv1, id);
      if CreateSafe(sv, id, name) {
        RegisterThenExit(db, sv, id, name, pass);
        MoveRegistered(db, sv1, id, sv.nextChan);
      } else {
        var c := sv.registry[""];
        var k :| k in sv.chans[c].members && k != id;
        var next := Create(sv, id, name, pass);
        assert k in Exit(sv1, id).chans[c].members;
        ExitKeeps(db, sv1, id);
        EnterShape(Exit(sv1, id), id, sv.nextChan);
        assert next.chans[c].members != [] && next.chans[c].name == "" && next.registry[""] == sv.nextChan;
      }
    }
  }

  lemma {:induction false} RegisterThenExit(db: set<string>, sv: Server, id: nat, name: string, pass: string)
    requires Core(db, sv) && OccupiedRegistered(sv) && LoggedIn(sv, id) && CreateSafe(sv, id, name)
    requires name in sv.registry ==> name == ""
    ensures OccupiedRegistered(Exit(Register(sv, name, pass), id))
  {
    var sv1 := Register(sv, name, pass);
    RegisterKeeps(db, sv, name, pass);
    ExitShape(sv1, id);
    var next := Exit(sv1, id);
    forall c | c in next.chans && next.chans[c].members != []
      ensures next.chans[c].name in next.registry && next.registry[next.chans[c].name] == c
    {
      var k := next.chans[c].members[0];
      assert k in sv1.chans[c].members && k != id;
      assert c in sv.chans && k in sv.chans[c].members;
      assert sv.registry[sv.chans[c].name] == c;
    }
  }

  lemma {:induction false} EnterAndTell(db: set<string>, sv: Server, id: nat, c: nat)
    requires Core(db, sv) && MayEnter(sv, id, c)
    requires sv.chans[c].name in sv.registry && sv.registry[sv.chans[c].name] == c
    ensures Keeps(db, sv, Tell(Enter(sv, id, c), id))
  {
    EnterKeeps(db, sv, id, c);
    TellKeeps(db, Enter(sv, id, c), id);
    if CaseDistinct(Usable(db)) && RostersExact(sv) {
      EnterRosters(db, sv, id, c);
      TellRosters(Enter(sv, id, c), id);
    }
  }

  lemma {:induction false} JoinDefaultKeeps(db: set<string>, sv: Server, id: nat)
    requires Core(db, sv) && id in sv.sessions && sv.sessions[id].chan == None && sv.sessions[id].status == Authenticated
    ensures Keeps(db, sv, JoinDefault(sv, id))
  {
    if DEFAULT in sv.registry {
      EnterAndTell(db, sv, id, sv.registry[DEFAULT]);
    } else {
      var sv1 := Register(sv, DEFAULT, NO_PASSWORD);
      RegisterKeeps(db, sv, DEFAULT, NO_PASSWORD);
      if RostersExact(sv) {
        RegisterRosters(db, sv, DEFAULT, NO_PASSWORD);
      }
      assert Keeps(db, sv, sv1);
      EnterAndTell(db, sv1, id, sv.nextChan);
    }
  }

  /** The name is free, known and short; it is nobody else's, and not the empty one, which every session without a name has. */
  lemma {:induction false} NamedKeeps(db: set<string>, sv: Server, id: nat)
    requires Core(db, sv) && Live(sv, id)
    requires sv.sessions[id].status == LoginStep2 && !NameInUse(sv.sessions, sv.sessions[id].temp)
    ensures Keeps(db, sv, SetSess(sv, id, SetUsername(sv.sessions[id]).(status := Authenticated)))
    ensures var next := SetSess(sv, id, SetUsername(sv.sessions[id]).(status := Authenticated));
      Live(next, id) && next.sessions[id].status == Authenticated && next.sessions[id].chan == None
  {
    var s := sv.sessions[id];
    assert PointsToOwn(sv, id) && NameFits(db, s);
    assert s.temp != "";
    var s1 := SetUsername(s).(status := Authenticated);
    SetSessKeeps(db, sv, id, s1);
    if RostersExact(sv) {
      SetSessRosters(db, sv, id, s1);
    }
  }

  lemma {:induction false} LoginKeeps(db: set<string>, sv: Server, id: nat, user: string, nonceOk: bool, testOk: bool)
    requires Core(db, sv) && Live(sv, id)
    ensures Keeps(db, sv, Login(db, sv, id, user, nonceOk, testOk))
  {
    var s := sv.sessions[id];
    if s.status == LoginStep2 && testOk && !NameInUse(sv.sessions, s.temp) {
      NamedJoins(db, sv, id);
      assert Login(db, sv, id, user, nonceOk, testOk)
        == JoinDefault(SetSess(sv, id, SetUsername(s).(status := Authenticated)), id);
    } else if s.status != Authenticated && s.status != Rejected {
      UnnamedKeeps(db, sv, id, user, nonceOk, testOk);
    } else {
      KeepsSelf(db, sv);
    }
  }

  lemma {:induction false} KeepsSelf(db: set<string>, sv: Server)
    requires Core(db, sv)
    ensures Keeps(db, sv, sv)
  {
  }

  lemma {:induction false} NamedJoins(db: set<string>, sv: Server, id: nat)
    requires Core(db, sv) && Live(sv, id)
    requires sv.sessions[id].status == LoginStep2 && !NameInUse(sv.sessions, sv.sessions[id].temp)
    ensures Keeps(db, sv, JoinDefault(SetSess(sv, id, SetUsername(sv.sessions[id]).(status := Authenticated)), id))
  {
    var sv1 := SetSess(sv, id, SetUsername(sv.sessions[id]).(status := Authenticated));
    NamedKeeps(db, sv, id);
    JoinDefaultKeeps(db, sv1, id);
  }

  /** Every other step of the login changes the session alone. */
  lemma {:induction false} UnnamedKeeps(db: set<string>, sv: Server, id: nat, user: string, nonceOk: bool, testOk: bool)
    requires Core(db, sv) && Live(sv, id)
    requires var s := sv.sessions[id];
      s.status != Authenticated && s.status != Rejected
      && !(s.status == LoginStep2 && testOk && !NameInUse(sv.sessions, s.temp))
    ensures Keeps(db, sv, Login(db, sv, id, user, nonceOk, testOk))
  {
    assert PointsToOwn(sv, id) && NameFits(db, sv.sessions[id]);
    var s1 := Login(db, sv, id, user, nonceOk, testOk).sessions[id];
    SetSessKeeps(db, sv, id, s1);
    if RostersExact(sv) {
      SetSessRosters(db, sv, id, s1);
    }
  }

  lemma {:induction false} CloseKeeps(db: set<string>, sv: Server, id: nat)
    requires Core(db, sv) && id in sv.sessions
    ensures Keeps(db, sv, SetSess(sv, id, sv.sessions[id].(open := false)))
  {
    var next := SetSess(sv, id, sv.sessions[id].(open := false));
    CloseCore(db, sv, id);
    if RostersExact(sv) {
      forall k | k in next.sessions && next.sessions[k].open
        ensures RosterExact(next, k)
      {
        assert RosterExact(sv, k) && PointsToOwn(sv, k);
        if sv.sessions[k].chan.Some? {
          var members := sv.chans[sv.sessions[k].chan.value].members;
          assert NamesOf(next.sessions, members) == NamesOf(sv.sessions, members);
        }
      }
    }
  }

  lemma {:induction false} CloseCore(db: set<string>, sv: Server, id: nat)
    requires Core(db, sv) && id in sv.sessions
    ensures Core(db, SetSess(sv, id, sv.sessions[id].(open := false)))
  {
    var next := SetSess(sv, id, sv.sessions[id].(open := false));
    forall k | k in next.sessions
      ensures PointsToOwn(next, k) && NameFits(db, next.sessions[k])
    {
      assert PointsToOwn(sv, k) && NameFits(db, sv.sessions[k]);
    }
  }

  /** Deleting a session that has left its channel. */
  lemma {:induction false} EraseKeeps(db: set<string>, sv: Server, id: nat)
    requires Core(db, sv) && id in sv.sessions && sv.sessions[id].chan == None
    ensures Keeps(db, sv, sv.(sessions := sv.sessions - {id}))
  {
    var next := sv.(sessions := sv.sessions - {id});
    EraseCore(db, sv, id);
    if RostersExact(sv) {
      forall k | k in next.sessions && next.sessions[k].open
        ensures RosterExact(next, k)
      {
        assert RosterExact(sv, k) && PointsToOwn(sv, k);
        if sv.sessions[k].chan.Some? {
          var members := sv.chans[sv.sessions[k].chan.value].members;
          assert id !in members;
          assert NamesOf(next.sessions, members) == NamesOf(sv.sessions, members);
        }
      }
    }
  }

  lemma {:induction false} EraseCore(db: set<string>, sv: Server, id: nat)
    requires Core(db, sv) && id in sv.sessions && sv.sessions[id].chan == None
    ensures Core(db, sv.(sessions := sv.sessions - {id}))
  {
    var next := sv.(sessions := sv.sessions - {id});
    forall k | k in next.sessions
      ensures PointsToOwn(next, k) && NameFits(db, next.sessions[k])
    {
      assert PointsToOwn(sv, k) && NameFits(db, sv.sessions[k]);
    }
  }

  lemma {:induction false} DropKeeps(db: set<string>, sv: Server, id: nat)
    requires Core(db, sv) && id in sv.sessions
    ensures Keeps(db, sv, Exit(sv, id).(sessions := Exit(sv, id).sessions - {id}))
  {
    ExitKeeps(db, sv, id);
    if CaseDistinct(Usable(db)) && RostersExact(sv) {
      ExitRosters(db, sv, id);
    }
    EraseKeeps(db, Exit(sv, id), id);
  }

  lemma {:induction false} LeaveKeeps(db: set<string>, sv: Server, id: nat)
    requires Core(db, sv) && id in sv.sessions
    ensures Keeps(db, sv, Tell(Exit(sv, id), id))
  {
    ExitKeeps(db, sv, id);
    TellKeeps(db, Exit(sv, id), id);
    if CaseDistinct(Usable(db)) && RostersExact(sv) {
      ExitRosters(db, sv, id);
      TellRosters(Exit(sv, id), id);
    }
  }

  /** The sweep removes exactly the empty channels not called Default; every session keeps its channel. */
  lemma {:induction false} SweepExact(db: set<string>, sv: Server)
    requires Core(db, sv)
    ensures var next := SweepChannels(sv);
      && Core(db, next) && next.sessions == sv.sessions && next.chans == sv.chans
      && (forall n :: n in next.registry <==> n in sv.registry && (sv.chans[sv.registry[n]].members != [] || n == DEFAULT))
      && (OccupiedRegistered(sv) ==> OccupiedRegistered(next))
      && (RostersExact(sv) ==> RostersExact(next))
  {
    var next := SweepChannels(sv);
    forall k | k in next.sessions
      ensures PointsToOwn(next, k)
    {
      assert PointsToOwn(sv, k);
    }
    forall k | k in next.sessions && RostersExact(sv) && next.sessions[k].open
      ensures RosterExact(next, k)
    {
      assert RosterExact(sv, k);
    }
  }

  // ---------- every step and every run ----------

  lemma {:induction false} QuietSession(db: set<string>, sv: Server, id: nat, s: Sess)
    requires Core(db, sv) && s.chan == None && s.name == "" && NameFits(db, s)
    requires id in sv.sessions ==> sv.sessions[id].chan == None && sv.sessions[id].open && s.out == sv.sessions[id].out
    requires id !in sv.sessions ==> s.out == []
    ensures Keeps(db, sv, SetSess(sv, id, s))
  {
    SetSessKeeps(db, sv, id, s);
    if RostersExact(sv) {
      SetSessRosters(db, sv, id, s);
    }
  }

  predicate SafeEvent(sv: Server, ev: Event) {
    ev.CreateChannel? && LoggedIn(sv, ev.id) ==> CreateSafe(sv, ev.id, ev.name)
  }

  lemma {:induction false} StepKeeps(db: set<string>, sv: Server, ev: Event)
    requires Core(db, sv) && SafeEvent(sv, ev)
    ensures Keeps(db, sv, Step(db, sv, ev))
  {
    match ev {
      case Accept(id) =>
        if id !in sv.sessions {
          QuietSession(db, sv, id, Sess(Connected, "", "", None, true, []));
        }
      case LoginPacket(id, user, nonceOk, testOk) =>
        if Live(sv, id) {
          LoginKeeps(db, sv, id, user, nonceOk, testOk);
        }
      case LoginTimeout(id) =>
        if Live(sv, id) {
          TimeoutKeeps(db, sv, id);
        }
      case Close(id) => if id in sv.sessions { CloseKeeps(db, sv, id); }
      case Drop(id) => if id in sv.sessions { DropKeeps(db, sv, id); }
      case JoinChannel(id, name, pass) => if LoggedIn(sv, id) { JoinKeeps(db, sv, id, name, pass); }
      case CreateChannel(id, name, pass) => if LoggedIn(sv, id) { SafeCreateKeeps(db, sv, id, name, pass); }
      case LeaveChannel(id) => if LoggedIn(sv, id) { LeaveKeeps(db, sv, id); }
      case Sweep => SweepExact(db, sv);
    }
  }

  lemma {:induction false} TimeoutKeeps(db: set<string>, sv: Server, id: nat)
    requires Core(db, sv) && Live(sv, id)
    ensures Keeps(db, sv, SetSess(sv, id, Timeout(sv.sessions[id])))
  {
    var s := sv.sessions[id];
    assert PointsToOwn(sv, id) && NameFits(db, s);
    if Timeout(s) == s {
      assert sv.sessions[id := s] == sv.sessions;
    } else {
      QuietSession(db, sv, id, Timeout(s));
    }
  }

  lemma {:induction false} SafeCreateKeeps(db: set<string>, sv: Server, id: nat, name: string, pass: string)
    requires Core(db, sv) && LoggedIn(sv, id) && CreateSafe(sv, id, name)
    ensures Keeps(db, sv, Create(sv, id, name, pass))
  {
    CreateKeeps(db, sv, id, name, pass);
    if OccupiedRegistered(sv) {
      CreateExact(db, sv, id, name, pass);
    }
  }

  // Without the assumption on channel names, the core and the rosters still hold.
  lemma {:induction false} StepKeepsCore(db: set<string>, sv: Server, ev: Event)
    requires Core(db, sv)
    ensures Core(db, Step(db, sv, ev))
    ensures CaseDistinct(Usable(db)) && RostersExact(sv) ==> RostersExact(Step(db, sv, ev))
  {
    if ev.CreateChannel? && LoggedIn(sv, ev.id) {
      CreateKeeps(db, sv, ev.id, ev.name, ev.pass);
    } else {
      StepKeeps(db, sv, ev);
    }
  }

  lemma {:induction false} RunKeepsCore(db: set<string>, evs: seq<Event>)
    ensures Core(db, Run(db, Empty(), evs))
    ensures CaseDistinct(Usable(db)) ==> RostersExact(Run(db, Empty(), evs))
  {
    if evs != [] {
      RunKeepsCore(db, evs[..|evs| - 1]);
      StepKeepsCore(db, Run(db, Empty(), evs[..|evs| - 1]), evs[|evs| - 1]);
    }
  }

  /** In every run, authenticated sessions have pairwise distinct, non-empty, known names of at most 16 characters. */
  lemma {:induction false} AuthenticatedNames(db: set<string>, evs: seq<Event>)
    ensures var ss := Run(db, Empty(), evs).sessions;
      && (forall k :: k in ss && ss[k].status == Authenticated ==>
            ss[k].name != "" && |ss[k].name| <= 16 && ss[k].name in db)
      && (forall j, k :: j in ss && k in ss && j != k && ss[j].status == Authenticated && ss[k].status == Authenticated
            ==> ss[j].name != ss[k].name)
  {
    RunKeepsCore(db, evs);
    var ss := Run(db, Empty(), evs).sessions;
    forall k | k in ss
      ensures NameFits(db, ss[k])
    {
    }
  }

  /** A session that is authenticated or rejected stays so until it is dropped. */
  lemma {:induction false} FinalStatus(db: set<string>, sv: Server, ev: Event, k: nat)
    requires Core(db, sv) && k in sv.sessions && sv.sessions[k].status in {Authenticated, Rejected}
    ensures k in Step(db, sv, ev).sessions ==> Step(db, sv, ev).sessions[k].status == sv.sessions[k].status
    ensures k !in Step(db, sv, ev).sessions ==> ev == Drop(k) && !sv.sessions[k].open
  {
    if ev.JoinChannel? || ev.CreateChannel? || ev.LeaveChannel? {
      ChannelNames(db, sv, ev);
    } else {
      match ev {
        case Drop(id) => if id in sv.sessions { ExitKeeps(db, sv, id); }
        case LoginPacket(id, user, nonceOk, testOk) => if Live(sv, id) { LoginStatus(db, sv, id, user, nonceOk, testOk, k); }
        case _ =>
      }
    }
  }

  /** The channel handlers leave names and states alone. */
  lemma {:induction false} ChannelNames(db: set<string>, sv: Server, ev: Event)
    requires Core(db, sv) && (ev.JoinChannel? || ev.CreateChannel? || ev.LeaveChannel?)
    ensures SameNames(sv.sessions, Step(db, sv, ev).sessions)
  {
    if LoggedIn(sv, ev.id) {
      match ev {
        case JoinChannel(id, name, pass) => JoinNames(db, sv, id, name, pass);
        case CreateChannel(id, name, pass) => CreateKeeps(db, sv, id, name, pass);
        case LeaveChannel(id) =>
          ExitKeeps(db, sv, id);
          TellKeeps(db, Exit(sv, id), id);
      }
    }
  }

  lemma {:induction false} JoinNames(db: set<string>, sv: Server, id: nat, name: string, pass: string)
    requires Core(db, sv) && LoggedIn(sv, id)
    ensures SameNames(sv.sessions, Join(sv, id, name, pass).sessions)
  {
    if name == "" || name !in sv.registry || sv.chans[sv.registry[name]].pass != pass {
      TellKeeps(db, sv, id);
    } else {
      MoveKeeps(db, sv, id, sv.registry[name]);
    }
  }

  lemma {:induction false} LoginStatus(db: set<string>, sv: Server, id: nat, user: string, nonceOk: bool, testOk: bool,
                                       k: nat)
    requires Core(db, sv) && Live(sv, id) && k in sv.sessions && sv.sessions[k].status in {Authenticated, Rejected}
    ensures var next := Login(db, sv, id, user, nonceOk, testOk);
      k in next.sessions && next.sessions[k].status == sv.sessions[k].status
  {
    var s := sv.sessions[id];
    if s.status == LoginStep2 && testOk && !NameInUse(sv.sessions, s.temp) {
      WelcomeStatus(db, sv, id, SetSess(sv, id, SetUsername(s).(status := Authenticated)), k);
    }
  }

  lemma {:induction false} WelcomeStatus(db: set<string>, sv: Server, id: nat, sv1: Server, k: nat)
    requires RegistryInv(sv) && id in sv.sessions && k in sv.sessions && k != id
    requires sv1 == sv.(sessions := sv1.sessions) && id in sv1.sessions && k in sv1.sessions
    ensures var next := JoinDefault(sv1, id);
      k in next.sessions && next.sessions[k].status == sv1.sessions[k].status
  {
    var sv2 := if DEFAULT in sv1.registry then sv1 else Register(sv1, DEFAULT, NO_PASSWORD);
    EnterStatus(sv2, id, sv2.registry[DEFAULT], k);
  }

  lemma {:induction false} EnterStatus(sv: Server, id: nat, c: nat, k: nat)
    requires id in sv.sessions && c in sv.chans && k in sv.sessions
    ensures var next := Tell(Enter(sv, id, c), id);
      k in next.sessions && next.sessions[k].status == sv.sessions[k].status
  {
  }

  /**
   In every run, a session's back pointer names exactly the one channel whose map
   holds it, and only authenticated sessions are in channels.
   */
  lemma {:induction false} ChannelMembership(db: set<string>, evs: seq<Event>, k: nat, c: nat)
    requires var sv := Run(db, Empty(), evs); k in sv.sessions && c in sv.chans
    ensures var sv := Run(db, Empty(), evs);
      && (k in sv.chans[c].members <==> sv.sessions[k].chan == Some(c))
      && (k in sv.chans[c].members ==> sv.sessions[k].status == Authenticated)
      && (forall d :: d in sv.chans && k in sv.chans[c].members && k in sv.chans[d].members ==> c == d)
  {
    RunKeepsCore(db, evs);
    assert PointsToOwn(Run(db, Empty(), evs), k);
  }

  predicate SafeRun(db: set<string>, evs: seq<Event>) {
    evs == [] || (SafeRun(db, evs[..|evs| - 1]) && SafeEvent(Run(db, Empty(), evs[..|evs| - 1]), evs[|evs| - 1]))
  }

  /** Every occupied channel stays registered under its own name, in every run that creates safely. */
  lemma {:induction false} OccupiedStaysRegistered(db: set<string>, evs: seq<Event>)
    requires SafeRun(db, evs)
    ensures OccupiedRegistered(Run(db, Empty(), evs))
  {
    if evs != [] {
      OccupiedStaysRegistered(db, evs[..|evs| - 1]);
      RunKeepsCore(db, evs[..|evs| - 1]);
      StepKeeps(db, Run(db, Empty(), evs[..|evs| - 1]), evs[|evs| - 1]);
    }
  }

  /** The safety of the names is needed: the first unsafe creation orphans an occupied channel. */
  lemma {:induction false} UnsafeCreateOrphans(db: set<string>, evs: seq<Event>, ev: Event)
    requires SafeRun(db, evs) && !SafeEvent(Run(db, Empty(), evs), ev)
    ensures !OccupiedRegistered(Step(db, Run(db, Empty(), evs), ev))
  {
    OccupiedStaysRegistered(db, evs);
    RunKeepsCore(db, evs);
    CreateExact(db, Run(db, Empty(), evs), ev.id, ev.name, ev.pass);
  }

  // ---------- rosters: exactly when ----------

  /** The login of one session, from its connection to its place in the default channel. */
  function LoginEvents(id: nat, user: string): seq<Event> {
    [Accept(id), LoginPacket(id, "", true, true), LoginPacket(id, user, true, true), LoginPacket(id, "", true, true)]
  }

  lemma {:induction false} RunSnoc(db: set<string>, evs: seq<Event>, ev: Event)
    ensures Run(db, Empty(), evs + [ev]) == Step(db, Run(db, Empty(), evs), ev)
  {
    assert (evs + [ev])[..|evs|] == evs;
  }

  lemma {:induction false} RunFour(db: set<string>, evs: seq<Event>, more: seq<Event>)
    requires |more| == 4
    ensures var sv := Run(db, Empty(), evs);
      Run(db, Empty(), evs + more) == Step(db, Step(db, Step(db, Step(db, sv, more[0]), more[1]), more[2]), more[3])
  {
    var e1 := evs + [more[0]];
    var e2 := e1 + [more[1]];
    var e3 := e2 + [more[2]];
    assert evs + more == e3 + [more[3]];
    RunSnoc(db, evs, more[0]);
    RunSnoc(db, e1, more[1]);
    RunSnoc(db, e2, more[2]);
    RunSnoc(db, e3, more[3]);
  }

  function FirstIn(x: string): Server {
    Server(map[0 := Sess(Authenticated, x, x, Some(0), true, [Users([x]), SystemText])],
           map[0 := Chan(DEFAULT, NO_PASSWORD, [0])], map[DEFAULT := 0], 1)
  }

  lemma {:induction false} FirstLogin(db: set<string>, x: string)
    requires x in Usable(db)
    ensures Run(db, Empty(), LoginEvents(0, x)) == FirstIn(x)
  {
    RunFour(db, [], LoginEvents(0, x));
    assert [] + LoginEvents(0, x) == LoginEvents(0, x);
    var s0 := Sess(Connected, "", "", None, true, []);
    var sv1 := Empty().(sessions := map[0 := s0]);
    assert Step(db, Empty(), Accept(0)) == sv1;
    var sv3 := Empty().(sessions := map[0 := s0.(status := LoginStep2, temp := x)]);
    assert Login(db, Login(db, sv1, 0, "", true, true), 0, x, true, true) == sv3;
    assert !NameInUse(sv3.sessions, x);
    var sv4 := Register(SetSess(sv3, 0, s0.(status := Authenticated, temp := x, name := x)), DEFAULT, NO_PASSWORD);
    FirstEnters(sv4, x);
  }

  lemma {:induction false} FirstEnters(sv4: Server, x: string)
    requires sv4 == Server(map[0 := Sess(Authenticated, x, x, None, true, [])], map[0 := Chan(DEFAULT, NO_PASSWORD, [])],
                           map[DEFAULT := 0], 1)
    ensures Tell(Enter(sv4, 0, 0), 0) == FirstIn(x)
  {
    assert sv4.chans[0].members + [0] == [0];
    assert NamesOf(sv4.sessions, [0]) == [x];
    var sv5 := Enter(sv4, 0, 0);
    assert sv5.sessions[0] == Sess(Authenticated, x, x, Some(0), true, [Users([x])]);
    assert sv5.sessions == map[0 := sv5.sessions[0]];
    assert [Users([x])] + [SystemText] == [Users([x]), SystemText];
    assert sv5.chans == FirstIn(x).chans;
    assert Tell(sv5, 0).sessions == FirstIn(x).sessions;
  }

  lemma {:induction false} SecondLogin(db: set<string>, x: string, y: string)
    requires x in Usable(db) && y in Usable(db) && x != y
    ensures var sv := Run(db, Empty(), LoginEvents(0, x) + LoginEvents(1, y));
      && 1 in sv.sessions && sv.sessions[1].open && sv.sessions[1].out == [Users([x, y]), SystemText]
      && MemberNames(sv, 1) == Elements([x, y])
  {
    FirstLogin(db, x);
    RunFour(db, LoginEvents(0, x), LoginEvents(1, y));
    SecondReady(db, x, y);
    SecondEnters(Ready(x, y), x, y);
    assert !NameInUse(Ready(x, y).sessions, y);
  }

  /** The first session is in, the second has only its key to prove. */
  function Ready(x: string, y: string): Server {
    FirstIn(x).(sessions := FirstIn(x).sessions[1 := Sess(LoginStep2, y, "", None, true, [])])
  }

  lemma {:induction false} SecondReady(db: set<string>, x: string, y: string)
    requires y in Usable(db)
    ensures var evs := LoginEvents(1, y);
      Step(db, Step(db, Step(db, FirstIn(x), evs[0]), evs[1]), evs[2]) == Ready(x, y)
  {
    var s0 := Sess(Connected, "", "", None, true, []);
    var sv1 := Step(db, FirstIn(x), Accept(1));
    assert sv1 == SetSess(FirstIn(x), 1, s0);
    var sv2 := Step(db, sv1, LoginPacket(1, "", true, true));
    assert sv2 == SetSess(sv1, 1, s0.(status := LoginStep1));
  }

  lemma {:induction false} SecondEnters(sv3: Server, x: string, y: string)
    requires sv3 == Ready(x, y)
    requires x != y && |y| <= MAX_USER_LEN
    ensures var sv4 := SetSess(sv3, 1, SetUsername(sv3.sessions[1]).(status := Authenticated));
      var sv := JoinDefault(sv4, 1);
      && 1 in sv.sessions && sv.sessions[1].open && sv.sessions[1].out == [Users([x, y]), SystemText]
      && MemberNames(sv, 1) == Elements([x, y])
  {
    var sv4 := SetSess(sv3, 1, SetUsername(sv3.sessions[1]).(status := Authenticated));
    assert sv4.chans[0].members + [1] == [0, 1];
    assert NamesOf(sv4.sessions, [0, 1]) == [x, y];
    var sv5 := Enter(sv4, 1, 0);
    assert sv5.sessions[1].out == [Users([x, y])];
    assert sv5.chans[0].members == [0, 1];
    var sv := Tell(sv5, 1);
    assert NamesOf(sv.sessions, [0, 1]) == [x, y];
  }

  /**
   Replaying the packets of every open session gives exactly the names in its channel,
   in every run, if and only if no two usable names of the user table differ only in case.
   */
  lemma {:induction false} RostersExactIff(db: set<string>)
    ensures (forall evs: seq<Event> :: RostersExact(Run(db, Empty(), evs))) <==> CaseDistinct(Usable(db))
  {
    if CaseDistinct(Usable(db)) {
      forall evs: seq<Event>
        ensures RostersExact(Run(db, Empty(), evs))
      {
        RunKeepsCore(db, evs);
      }
    } else {
      var x, y :| x in Usable(db) && y in Usable(db) && Matches(x, y) && x != y;
      var evs := LoginEvents(0, x) + LoginEvents(1, y);
      SecondLogin(db, x, y);
      ListingExact([x, y]);
      ReplaySnoc([Users([x, y])], SystemText);
      ReplaySnoc([], Users([x, y]));
      assert [] + [Users([x, y])] == [Users([x, y])] && [Users([x, y])] + [SystemText] == [Users([x, y]), SystemText];
      assert [x, y][0] in Elements([x, y]) && [x, y][1] in Elements([x, y]);
      assert !RosterExact(Run(db, Empty(), evs), 1);
    }
  }
}
