/**
 The chat server as its users see it: who is who, who sits in which room, and what opens it.
 There are no member lists and no packets here; every step of the server is a step of this
 plain form.
 */
module ChatOutcomes {
  import opened Common
  import opened Wrappers
  import opened Roster
  import opened ChatServer
  import opened ChatInvariants
  import opened ChatTheorems

  datatype Person = Person(status: Status, temp: string, name: string, seat: Option<nat>, open: bool)

  datatype Room = Room(name: string, pass: string)

  /** names leads from a room's name to the room; next is the number of the next room. */
  datatype Hall = Hall(people: map<nat, Person>, rooms: map<nat, Room>, names: map<string, nat>, next: nat)

  function PersonOf(s: Sess): Person {
    Person(s.status, s.temp, s.name, s.chan, s.open)
  }

  function PeopleOf(ss: Sessions): map<nat, Person> {
    map k | k in ss :: PersonOf(ss[k])
  }

  function RoomsOf(chans: map<nat, Chan>): map<nat, Room> {
    map c | c in chans :: Room(chans[c].name, chans[c].pass)
  }

  function HallOf(sv: Server): Hall {
    Hall(PeopleOf(sv.sessions), RoomsOf(sv.chans), sv.registry, sv.nextChan)
  }

  // ---------- the plain form ----------

  function Replaced(h: Hall, id: nat, p: Person): Hall {
    h.(people := h.people[id := p])
  }

  function Seated(h: Hall, id: nat, seat: Option<nat>): Hall
    requires id in h.people
  {
    Replaced(h, id, h.people[id].(seat := seat))
  }

  function Opened(h: Hall, name: string, pass: string): Hall {
    Hall(h.people, h.rooms[h.next := Room(name, pass)], h.names[name := h.next], h.next + 1)
  }

  /** A room can be entered by its name, unless that is empty, with its password. */
  predicate Admits(h: Hall, name: string, pass: string) {
    name != "" && name in h.names && h.names[name] in h.rooms && h.rooms[h.names[name]].pass == pass
  }

  /** "Default" is never to be had, a name in use only if it is empty. */
  predicate Creatable(h: Hall, name: string) {
    name != "Default" && (name in h.names ==> name == "")
  }

  predicate Free(h: Hall, name: string) {
    forall k :: k in h.people ==> h.people[k].name != name
  }

  predicate Occupied(h: Hall, c: nat) {
    exists k :: k in h.people && h.people[k].seat == Some(c)
  }

  function Refused(h: Hall, id: nat): Hall
    requires id in h.people
  {
    Replaced(h, id, h.people[id].(status := Rejected, open := false))
  }

  /** The password of the default room is the digest of the empty text. */
  function Welcomed(h: Hall, id: nat): Hall
    requires id in h.people
  {
    var h1 := Replaced(h, id, h.people[id].(status := Authenticated, name := h.people[id].temp));
    var h2 := if "Default" in h1.names then h1
              else Opened(h1, "Default", "e3b0c44298fc1c149afbf4c8996fb92427ae41e4649b934ca495991b7852b855");
    Seated(h2, id, Some(h2.names["Default"]))
  }

  function LoggingIn(db: set<string>, h: Hall, id: nat, user: string, nonceOk: bool, testOk: bool): Hall
    requires id in h.people
  {
    var p := h.people[id];
    if p.status == Connected then Replaced(h, id, p.(status := LoginStep1))
    else if p.status == LoginStep1 then
      if |user| > 16 then Refused(h, id)
      else if user in db && nonceOk then Replaced(h, id, p.(status := LoginStep2, temp := user))
      else Replaced(h, id, p.(status := Rejected, temp := user, open := false))
    else if p.status == LoginStep2 then
      if testOk && Free(h, p.temp) then Welcomed(h, id) else Refused(h, id)
    else h
  }

  predicate Present(h: Hall, id: nat) {
    id in h.people && h.people[id].open
  }

  predicate Member(h: Hall, id: nat) {
    Present(h, id) && h.people[id].status == Authenticated
  }

  function HallStep(db: set<string>, h: Hall, ev: Event): Hall {
    match ev
    case Accept(id) => if id in h.people then h else Replaced(h, id, Person(Connected, "", "", None, true))
    case LoginPacket(id, user, nonceOk, testOk) => if Present(h, id) then LoggingIn(db, h, id, user, nonceOk, testOk) else h
    case LoginTimeout(id) =>
      if Present(h, id) && h.people[id].status in {LoginStep1, LoginStep2} then Refused(h, id) else h
    case Close(id) => if id in h.people then Replaced(h, id, h.people[id].(open := false)) else h
    case Drop(id) => if id in h.people && !h.people[id].open then h.(people := h.people - {id}) else h
    case JoinChannel(id, name, pass) =>
      if Member(h, id) && Admits(h, name, pass) then Seated(h, id, Some(h.names[name])) else h
    case CreateChannel(id, name, pass) =>
      if Member(h, id) && Creatable(h, name) then Seated(Opened(h, name, pass), id, Some(h.next)) else h
    case LeaveChannel(id) => if Member(h, id) then Seated(h, id, None) else h
    case Sweep =>
      h.(names := map n | n in h.names && h.names[n] in h.rooms && (n == "Default" || Occupied(h, h.names[n])) :: h.names[n])
  }

  function HallRun(db: set<string>, h: Hall, evs: seq<Event>): Hall {
    if evs == [] then h else HallStep(db, HallRun(db, h, evs[..|evs| - 1]), evs[|evs| - 1])
  }

  // ---------- the parts of a step ----------

  lemma {:induction false} TellHall(sv: Server, id: nat)
    ensures HallOf(Tell(sv, id)) == HallOf(sv)
  {
    assert PeopleOf(Tell(sv, id).sessions) == PeopleOf(sv.sessions);
  }

  lemma {:induction false} PeopleMoved(a: Sessions, b: Sessions, id: nat, seat: Option<nat>)
    requires SameNames(a, b) && id in a && b[id].chan == seat
    requires forall k :: k in a && k != id ==> b[k].chan == a[k].chan
    ensures PeopleOf(b) == PeopleOf(a)[id := PersonOf(a[id]).(seat := seat)]
  {
    var moved := PeopleOf(a)[id := PersonOf(a[id]).(seat := seat)];
    assert PeopleOf(b).Keys == b.Keys == a.Keys == moved.Keys;
    forall k | k in a
      ensures PeopleOf(b)[k] == moved[k]
    {
    }
  }

  lemma {:induction false} SameRooms(a: map<nat, Chan>, b: map<nat, Chan>)
    requires a.Keys == b.Keys && forall c :: c in a ==> b[c] == a[c].(members := b[c].members)
    ensures RoomsOf(b) == RoomsOf(a)
  {
  }

  lemma {:induction false} ExitHall(sv: Server, id: nat)
    requires MembersInv(sv) && id in sv.sessions
    ensures HallOf(Exit(sv, id)) == Seated(HallOf(sv), id, None)
  {
    var next := Exit(sv, id);
    ExitShape(sv, id);
    PeopleMoved(sv.sessions, next.sessions, id, None);
    SameRooms(sv.chans, next.chans);
  }

  lemma {:induction false} EnterHall(sv: Server, id: nat, c: nat)
    requires MembersInv(sv) && MayEnter(sv, id, c)
    ensures HallOf(Enter(sv, id, c)) == Seated(HallOf(sv), id, Some(c))
  {
    var next := Enter(sv, id, c);
    EnterShape(sv, id, c);
    PeopleMoved(sv.sessions, next.sessions, id, Some(c));
    SameRooms(sv.chans, next.chans);
  }

  lemma {:induction false} RegisterHall(sv: Server, name: string, pass: string)
    ensures HallOf(Register(sv, name, pass)) == Opened(HallOf(sv), name, pass)
  {
    assert RoomsOf(Register(sv, name, pass).chans) == Opened(HallOf(sv), name, pass).rooms;
  }

  lemma {:induction false} SetSessHall(sv: Server, id: nat, s: Sess)
    ensures HallOf(SetSess(sv, id, s)) == Replaced(HallOf(sv), id, PersonOf(s))
  {
    assert PeopleOf(SetSess(sv, id, s).sessions) == PeopleOf(sv.sessions)[id := PersonOf(s)];
  }

  lemma {:induction false} MoveHall(db: set<string>, sv: Server, id: nat, c: nat)
    requires Core(db, sv) && id in sv.sessions && c in sv.chans && sv.sessions[id].status == Authenticated
    ensures HallOf(Tell(Enter(Exit(sv, id), id, c), id)) == Seated(HallOf(sv), id, Some(c))
  {
    var sv1 := Exit(sv, id);
    ExitKeeps(db, sv, id);
    ExitHall(sv, id);
    EnterHall(sv1, id, c);
    TellHall(Enter(sv1, id, c), id);
    SeatedTwice(HallOf(sv), id, None, Some(c));
  }

  lemma {:induction false} SeatedTwice(h: Hall, id: nat, a: Option<nat>, b: Option<nat>)
    requires id in h.people
    ensures Seated(Seated(h, id, a), id, b) == Seated(h, id, b)
  {
  }

  // ---------- the steps ----------

  lemma {:induction false} JoinHall(db: set<string>, sv: Server, id: nat, name: string, pass: string)
    requires Core(db, sv) && LoggedIn(sv, id)
    ensures HallOf(Step(db, sv, JoinChannel(id, name, pass))) == HallStep(db, HallOf(sv), JoinChannel(id, name, pass))
  {
    if Admits(HallOf(sv), name, pass) {
      MoveHall(db, sv, id, sv.registry[name]);
    } else {
      TellHall(sv, id);
    }
  }

  lemma {:induction false} CreateHall(db: set<string>, sv: Server, id: nat, name: string, pass: string)
    requires Core(db, sv) && LoggedIn(sv, id)
    ensures HallOf(Step(db, sv, CreateChannel(id, name, pass))) == HallStep(db, HallOf(sv), CreateChannel(id, name, pass))
  {
    CreateIs(sv, id, name, pass);
    OpenedHall(db, sv, id, name, pass);
    TellHall(sv, id);
  }

  lemma {:induction false} CreateIs(sv: Server, id: nat, name: string, pass: string)
    requires id in sv.sessions && sv.nextChan !in sv.chans
    ensures Create(sv, id, name, pass) ==
      if Creatable(HallOf(sv), name) then Tell(Enter(Exit(Register(sv, name, pass), id), id, sv.nextChan), id) else Tell(sv, id)
  {
  }

  lemma {:induction false} OpenedHall(db: set<string>, sv: Server, id: nat, name: string, pass: string)
    requires Core(db, sv) && LoggedIn(sv, id)
    ensures HallOf(Tell(Enter(Exit(Register(sv, name, pass), id), id, sv.nextChan), id))
         == Seated(Opened(HallOf(sv), name, pass), id, Some(sv.nextChan))
  {
    RegisterKeeps(db, sv, name, pass);
    RegisterHall(sv, name, pass);
    MoveHall(db, Register(sv, name, pass), id, sv.nextChan);
  }

  lemma {:induction false} LeaveHall(db: set<string>, sv: Server, id: nat)
    requires Core(db, sv) && LoggedIn(sv, id)
    ensures HallOf(Step(db, sv, LeaveChannel(id))) == HallStep(db, HallOf(sv), LeaveChannel(id))
  {
    ExitHall(sv, id);
    TellHall(Exit(sv, id), id);
  }

  lemma {:induction false} JoinDefaultHall(db: set<string>, sv: Server, id: nat)
    requires Core(db, sv) && id in sv.sessions && sv.sessions[id].chan == None && sv.sessions[id].status == Authenticated
    ensures var h := if "Default" in sv.registry then HallOf(sv) else Opened(HallOf(sv), "Default", NO_PASSWORD);
      HallOf(JoinDefault(sv, id)) == Seated(h, id, Some(h.names["Default"]))
  {
    var sv1 := sv;
    if DEFAULT !in sv.registry {
      sv1 := Register(sv, DEFAULT, NO_PASSWORD);
      RegisterKeeps(db, sv, DEFAULT, NO_PASSWORD);
      RegisterHall(sv, DEFAULT, NO_PASSWORD);
    }
    EnterHall(sv1, id, sv1.registry[DEFAULT]);
    TellHall(Enter(sv1, id, sv1.registry[DEFAULT]), id);
  }

  lemma {:induction false} WelcomeHall(db: set<string>, sv: Server, id: nat)
    requires Core(db, sv) && Live(sv, id)
    requires sv.sessions[id].status == LoginStep2 && !NameInUse(sv.sessions, sv.sessions[id].temp)
    ensures HallOf(JoinDefault(SetSess(sv, id, SetUsername(sv.sessions[id]).(status := Authenticated)), id))
         == Welcomed(HallOf(sv), id)
  {
    var s := SetUsername(sv.sessions[id]).(status := Authenticated);
    assert NameFits(db, sv.sessions[id]);
    NamedKeeps(db, sv, id);
    SetSessHall(sv, id, s);
    JoinDefaultHall(db, SetSess(sv, id, s), id);
  }

  lemma {:induction false} FreeIff(sv: Server, name: string)
    ensures NameInUse(sv.sessions, name) <==> !Free(HallOf(sv), name)
  {
    assert forall k :: k in sv.sessions ==> HallOf(sv).people[k].name == sv.sessions[k].name;
  }

  lemma {:induction false} LoginHall(db: set<string>, sv: Server, id: nat, user: string, nonceOk: bool, testOk: bool)
    requires Core(db, sv) && Live(sv, id)
    ensures HallOf(Login(db, sv, id, user, nonceOk, testOk)) == LoggingIn(db, HallOf(sv), id, user, nonceOk, testOk)
  {
    var s := sv.sessions[id];
    if s.status == LoginStep2 {
      FreeIff(sv, s.temp);
      if testOk && !NameInUse(sv.sessions, s.temp) {
        WelcomeHall(db, sv, id);
      } else {
        SetSessHall(sv, id, s.(status := Rejected, open := false));
      }
    } else if s.status == LoginStep1 {
      RequestHall(db, sv, id, user, nonceOk, testOk);
    } else {
      SetSessHall(sv, id, s.(status := LoginStep1));
    }
  }

  lemma {:induction false} RequestHall(db: set<string>, sv: Server, id: nat, user: string, nonceOk: bool, testOk: bool)
    requires Live(sv, id) && sv.sessions[id].status == LoginStep1
    ensures HallOf(Login(db, sv, id, user, nonceOk, testOk)) == LoggingIn(db, HallOf(sv), id, user, nonceOk, testOk)
  {
    var s := sv.sessions[id];
    if |user| > 16 {
      SetSessHall(sv, id, s.(status := Rejected, open := false));
    } else if user in db && nonceOk {
      SetSessHall(sv, id, s.(status := LoginStep2, temp := user));
    } else {
      SetSessHall(sv, id, s.(status := Rejected, temp := user, open := false));
    }
  }

  lemma {:induction false} DropHall(db: set<string>, sv: Server, id: nat)
    requires Core(db, sv) && id in sv.sessions && !sv.sessions[id].open
    ensures HallOf(Step(db, sv, Drop(id))) == HallStep(db, HallOf(sv), Drop(id))
  {
    ExitHall(sv, id);
    PeopleWithout(Exit(sv, id).sessions, id);
    assert Seated(HallOf(sv), id, None).people - {id} == HallOf(sv).people - {id};
  }

  lemma {:induction false} PeopleWithout(ss: Sessions, id: nat)
    ensures PeopleOf(ss - {id}) == PeopleOf(ss) - {id}
  {
  }

  /** A registered channel is kept exactly when somebody sits in it or it is the default one. */
  lemma {:induction false} SweepHall(db: set<string>, sv: Server)
    requires Core(db, sv)
    ensures HallOf(SweepChannels(sv)) == HallStep(db, HallOf(sv), Sweep)
  {
    var h := HallOf(sv);
    forall n | n in sv.registry
      ensures Kept(sv, sv.registry[n]) <==> n == "Default" || Occupied(h, h.names[n])
    {
      OccupiedIff(sv, sv.registry[n]);
    }
    assert SweepChannels(sv).registry == HallStep(db, h, Sweep).names;
  }

  lemma {:induction false} OccupiedIff(sv: Server, c: nat)
    requires MembersInv(sv) && c in sv.chans
    ensures sv.chans[c].members != [] <==> Occupied(HallOf(sv), c)
  {
    var h, members := HallOf(sv), sv.chans[c].members;
    if members != [] {
      assert members[0] in h.people && h.people[members[0]].seat == Some(c);
    }
    if Occupied(h, c) {
      var k :| k in h.people && h.people[k].seat == Some(c);
      assert PointsToOwn(sv, k);
    }
  }

  // ---------- main results ----------

  /** Every step of the server is the same step of the plain form. */
  lemma {:induction false} StepOutcome(db: set<string>, sv: Server, ev: Event)
    requires Core(db, sv)
    ensures HallOf(Step(db, sv, ev)) == HallStep(db, HallOf(sv), ev)
  {
    match ev {
      case Accept(id) => SetSessHall(sv, id, Sess(Connected, "", "", None, true, []));
      case LoginPacket(id, user, nonceOk, testOk) =>
        if Live(sv, id) { LoginHall(db, sv, id, user, nonceOk, testOk); }
      case LoginTimeout(id) => if Live(sv, id) { TimeoutHall(db, sv, id); }
      case Close(id) => if id in sv.sessions { SetSessHall(sv, id, sv.sessions[id].(open := false)); }
      case Drop(id) => if id in sv.sessions && !sv.sessions[id].open { DropHall(db, sv, id); }
      case JoinChannel(id, name, pass) => if LoggedIn(sv, id) { JoinHall(db, sv, id, name, pass); }
      case CreateChannel(id, name, pass) => if LoggedIn(sv, id) { CreateHall(db, sv, id, name, pass); }
      case LeaveChannel(id) => if LoggedIn(sv, id) { LeaveHall(db, sv, id); }
      case Sweep => SweepHall(db, sv);
    }
  }

  lemma {:induction false} TimeoutHall(db: set<string>, sv: Server, id: nat)
    requires Live(sv, id)
    ensures HallOf(Step(db, sv, LoginTimeout(id))) == HallStep(db, HallOf(sv), LoginTimeout(id))
  {
    var s := Timeout(sv.sessions[id]);
    SetSessHall(sv, id, s);
    if s == sv.sessions[id] {
      assert sv.sessions[id := s] == sv.sessions;
    }
  }

  /** Every run of the server looks like the run of the plain form, whose seats are the member lists. */
  lemma {:induction false} RunOutcome(db: set<string>, evs: seq<Event>)
    ensures var sv, h := Run(db, Empty(), evs), HallRun(db, EmptyHall(), evs);
      && HallOf(sv) == h
      && (forall c, k :: c in sv.chans ==> (k in sv.chans[c].members <==> k in h.people && h.people[k].seat == Some(c)))
  {
    RunLooks(db, evs);
    RunKeepsCore(db, evs);
    SeatsAreMembers(Run(db, Empty(), evs));
  }

  function EmptyHall(): Hall {
    Hall(map[], map[], map[], 0)
  }

  lemma {:induction false} RunLooks(db: set<string>, evs: seq<Event>)
    ensures HallOf(Run(db, Empty(), evs)) == HallRun(db, EmptyHall(), evs)
  {
    if evs == [] {
      assert PeopleOf(map[]) == map[] && RoomsOf(map[]) == map[];
    } else {
      var front := evs[..|evs| - 1];
      RunLooks(db, front);
      RunKeepsCore(db, front);
      StepOutcome(db, Run(db, Empty(), front), evs[|evs| - 1]);
    }
  }

  lemma {:induction false} SeatsAreMembers(sv: Server)
    requires MembersInv(sv)
    ensures var h := HallOf(sv);
      forall c, k :: c in sv.chans ==> (k in sv.chans[c].members <==> k in h.people && h.people[k].seat == Some(c))
  {
    forall c, k | c in sv.chans
      ensures k in sv.chans[c].members <==> k in HallOf(sv).people && HallOf(sv).people[k].seat == Some(c)
    {
      SeatIff(sv, c, k);
    }
  }

  /**
   Joining: the session sits in the registered channel afterwards if there is one under the
   name, which is not empty, and the password is that channel's.  Otherwise it is told so and
   nothing else happens.
   */
  lemma {:induction false} JoinOutcome(db: set<string>, sv: Server, id: nat, name: string, pass: string)
    requires Core(db, sv) && LoggedIn(sv, id)
    ensures var next := Step(db, sv, JoinChannel(id, name, pass));
      if name != "" && name in sv.registry && sv.chans[sv.registry[name]].pass == pass then
        id in next.sessions && next.sessions[id].chan == Some(sv.registry[name]) && MovedAlone(sv, next, id)
      else
        next == sv.(sessions := sv.sessions[id := sv.sessions[id].(out := sv.sessions[id].out + [SystemText])])
  {
    if name != "" && name in sv.registry && sv.chans[sv.registry[name]].pass == pass {
      Moved(db, sv, id, sv.registry[name]);
    }
  }

  lemma {:induction false} Moved(db: set<string>, sv: Server, id: nat, c: nat)
    requires Core(db, sv) && id in sv.sessions && c in sv.chans && sv.sessions[id].status == Authenticated
    ensures var next := Tell(Enter(Exit(sv, id), id, c), id);
      id in next.sessions && next.sessions[id].chan == Some(c) && MovedAlone(sv, next, id)
  {
    MoveKeeps(db, sv, id, c);
    MoveHall(db, sv, id, c);
    SeatMoved(sv, Tell(Enter(Exit(sv, id), id, c), id), id, c);
  }

  /** Nobody else moves, and no channel is renamed, opened or closed. */
  ghost predicate MovedAlone(sv: Server, next: Server, id: nat) {
    && next.registry == sv.registry && next.sessions.Keys == sv.sessions.Keys && next.chans.Keys == sv.chans.Keys
    && (forall k :: k in sv.sessions && k != id ==> next.sessions[k].chan == sv.sessions[k].chan)
    && (forall c :: c in sv.chans ==> next.chans[c] == sv.chans[c].(members := next.chans[c].members))
    && (forall c, k :: c in sv.chans && k != id ==> (k in next.chans[c].members <==> k in sv.chans[c].members))
    && (forall c :: c in sv.chans ==> (id in next.chans[c].members <==> id in next.sessions && next.sessions[id].chan == Some(c)))
  }

  lemma {:induction false} SeatMoved(sv: Server, next: Server, id: nat, c: nat)
    requires MembersInv(sv) && MembersInv(next) && id in sv.sessions
    requires HallOf(next) == Seated(HallOf(sv), id, Some(c))
    ensures id in next.sessions && next.sessions[id].chan == Some(c) && MovedAlone(sv, next, id)
  {
    assert HallOf(next).people.Keys == next.sessions.Keys;
    assert HallOf(sv).people.Keys == sv.sessions.Keys;
    SeatsMoved(sv.sessions, next.sessions, id, c);
    RoomsBack(sv.chans, next.chans);
    SeatedMembers(sv, next, id);
  }

  lemma {:induction false} SeatsMoved(a: Sessions, b: Sessions, id: nat, c: nat)
    requires id in a && PeopleOf(b) == PeopleOf(a)[id := PersonOf(a[id]).(seat := Some(c))]
    ensures a.Keys == b.Keys && b[id].chan == Some(c)
    ensures forall k :: k in a && k != id ==> b[k].chan == a[k].chan
  {
    assert PeopleOf(b).Keys == b.Keys && PeopleOf(a).Keys == a.Keys;
    forall k | k in b
      ensures b[k].chan == PeopleOf(b)[k].seat
    {
    }
  }

  lemma {:induction false} RoomsBack(a: map<nat, Chan>, b: map<nat, Chan>)
    requires RoomsOf(a) == RoomsOf(b)
    ensures a.Keys == b.Keys && forall c :: c in a ==> b[c] == a[c].(members := b[c].members)
  {
    assert RoomsOf(a).Keys == a.Keys && RoomsOf(b).Keys == b.Keys;
    forall c | c in a
      ensures b[c] == a[c].(members := b[c].members)
    {
      assert RoomsOf(a)[c] == RoomsOf(b)[c];
    }
  }

  lemma {:induction false} SeatedMembers(sv: Server, next: Server, id: nat)
    requires MembersInv(sv) && MembersInv(next) && id in sv.sessions
    requires sv.sessions.Keys == next.sessions.Keys && sv.chans.Keys == next.chans.Keys
    requires forall k :: k in sv.sessions && k != id ==> next.sessions[k].chan == sv.sessions[k].chan
    ensures forall c, k :: c in sv.chans && k != id ==> (k in next.chans[c].members <==> k in sv.chans[c].members)
    ensures forall c :: c in sv.chans ==> (id in next.chans[c].members <==> next.sessions[id].chan == Some(c))
  {
    forall c, k | c in sv.chans && k != id
      ensures k in next.chans[c].members <==> k in sv.chans[c].members
    {
      SeatIff(sv, c, k);
      SeatIff(next, c, k);
    }
    forall c | c in sv.chans
      ensures id in next.chans[c].members <==> next.sessions[id].chan == Some(c)
    {
      SeatIff(next, c, id);
    }
  }

  lemma {:induction false} SeatIff(sv: Server, c: nat, k: nat)
    requires MembersInv(sv) && c in sv.chans
    ensures k in sv.chans[c].members <==> k in sv.sessions && sv.sessions[k].chan == Some(c)
  {
    if k in sv.sessions {
      assert PointsToOwn(sv, k);
    }
  }

  /**
   A channel keeps the password it was created with: however the run goes on, as long as its
   name is registered, a session enters it with that password and with no other.
   */
  lemma {:induction false} PasswordHolds(db: set<string>, evs: seq<Event>, id: nat, name: string, pass: string,
                                         more: seq<Event>, k: nat, tried: string)
    requires var sv := Run(db, Empty(), evs); LoggedIn(sv, id) && name != "" && name != DEFAULT && name !in sv.registry
    requires var sv := Run(db, Empty(), evs + [CreateChannel(id, name, pass)] + more);
      LoggedIn(sv, k) && name in sv.registry && sv.registry[name] == Run(db, Empty(), evs).nextChan
    ensures var sv := Run(db, Empty(), evs + [CreateChannel(id, name, pass)] + more);
      var next := Step(db, sv, JoinChannel(k, name, tried));
      && k in next.sessions
      && (tried == pass ==> next.sessions[k].chan == Some(Run(db, Empty(), evs).nextChan))
      && (tried != pass ==> next.sessions[k].chan == sv.sessions[k].chan)
  {
    var before := evs + [CreateChannel(id, name, pass)];
    var c := Run(db, Empty(), evs).nextChan;
    RunSnoc(db, evs, CreateChannel(id, name, pass));
    RunKeepsCore(db, evs);
    StepOutcome(db, Run(db, Empty(), evs), CreateChannel(id, name, pass));
    assert HallOf(Run(db, Empty(), before)).rooms[c] == Room(name, pass);
    RoomStays(db, before, more, c);
    var sv := Run(db, Empty(), before + more);
    assert HallOf(sv).rooms[c] == Room(sv.chans[c].name, sv.chans[c].pass);
    RunKeepsCore(db, before + more);
    JoinOutcome(db, sv, k, name, tried);
  }

  lemma {:induction false} RoomStays(db: set<string>, evs: seq<Event>, more: seq<Event>, c: nat)
    requires c in HallOf(Run(db, Empty(), evs)).rooms
    ensures var h, g := HallOf(Run(db, Empty(), evs)), HallOf(Run(db, Empty(), evs + more));
      c in g.rooms && g.rooms[c] == h.rooms[c]
  {
    if more == [] {
      assert evs + more == evs;
    } else {
      var front, ev := more[..|more| - 1], more[|more| - 1];
      RoomStays(db, evs, front, c);
      assert evs + more == (evs + front) + [ev];
      RunSnoc(db, evs + front, ev);
      RunKeepsCore(db, evs + front);
      RoomKept(db, Run(db, Empty(), evs + front), ev, c);
    }
  }

  lemma {:induction false} RoomKept(db: set<string>, sv: Server, ev: Event, c: nat)
    requires Core(db, sv) && c in sv.chans
    ensures var h, g := HallOf(sv), HallOf(Step(db, sv, ev));
      c in h.rooms && c in g.rooms && g.rooms[c] == h.rooms[c]
  {
    StepOutcome(db, sv, ev);
    RoomsGrow(db, HallOf(sv), ev, c);
  }

  lemma {:induction false} RoomsGrow(db: set<string>, h: Hall, ev: Event, c: nat)
    requires c in h.rooms && c < h.next
    ensures var g := HallStep(db, h, ev); c in g.rooms && g.rooms[c] == h.rooms[c]
  {
    if ev.LoginPacket? && Present(h, ev.id) {
      LoginRooms(db, h, ev.id, ev.user, ev.nonceOk, ev.testOk, c);
    }
  }

  lemma {:induction false} LoginRooms(db: set<string>, h: Hall, id: nat, user: string, nonceOk: bool, testOk: bool, c: nat)
    requires id in h.people && c in h.rooms && c < h.next
    ensures var g := LoggingIn(db, h, id, user, nonceOk, testOk); c in g.rooms && g.rooms[c] == h.rooms[c]
  {
    WelcomeRooms(h, id, c);
  }

  lemma {:induction false} WelcomeRooms(h: Hall, id: nat, c: nat)
    requires id in h.people && c in h.rooms && c < h.next
    ensures var g := Welcomed(h, id); c in g.rooms && g.rooms[c] == h.rooms[c]
  {
  }
}
