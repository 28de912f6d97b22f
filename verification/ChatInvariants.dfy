/**
 What every run of the chat server keeps: distinct names, channel membership,
 registration of occupied channels, and rosters that mirror the channel.
 */
module ChatInvariants {
  import opened Common
  import opened Wrappers
  import opened Roster
  import opened ChatServer

  // ---------- the invariants ----------

  /** A session has a name exactly when it is authenticated; names are known, short and pairwise distinct. */
  ghost predicate NamesInv(db: set<string>, ss: Sessions) {
    && (forall k :: k in ss ==> NameFits(db, ss[k]))
    && (forall j, k :: j in ss && k in ss && j != k && ss[j].name != "" ==> ss[j].name != ss[k].name)
  }

  ghost predicate NameFits(db: set<string>, s: Sess) {
    && (s.status == Authenticated <==> s.name != "")
    && (s.name != "" ==> s.name in db && |s.name| <= MAX_USER_LEN)
    && (s.status == LoginStep2 ==> s.temp in db && |s.temp| <= MAX_USER_LEN)
  }

  /** The names of the user table that can pass the length test and the final look-up. */
  function Usable(db: set<string>): set<string> {
    set n | n in db && n != "" && |n| <= MAX_USER_LEN
  }

  /** Channel maps and session back pointers agree. */
  ghost predicate MembersInv(sv: Server) {
    && (forall c :: c in sv.chans ==> c < sv.nextChan && NoDuplicates(sv.chans[c].members))
    && (forall c, k :: c in sv.chans && k in sv.chans[c].members ==> k in sv.sessions && sv.sessions[k].chan == Some(c))
    && (forall k :: k in sv.sessions ==> PointsToOwn(sv, k))
  }

  ghost predicate PointsToOwn(sv: Server, k: nat)
    requires k in sv.sessions
  {
    match sv.sessions[k].chan
    case None => true
    case Some(c) => c in sv.chans && k in sv.chans[c].members && sv.sessions[k].status == Authenticated
  }

  /** A registered name leads to a channel of that name. */
  ghost predicate RegistryInv(sv: Server) {
    forall n :: n in sv.registry ==> sv.registry[n] in sv.chans && sv.chans[sv.registry[n]].name == n
  }

  /** Every occupied channel is registered under its own name. */
  ghost predicate OccupiedRegistered(sv: Server) {
    forall c :: c in sv.chans && sv.chans[c].members != [] ==>
      sv.chans[c].name in sv.registry && sv.registry[sv.chans[c].name] == c
  }

  ghost function MemberNames(sv: Server, k: nat): set<string>
    requires k in sv.sessions
  {
    match sv.sessions[k].chan
    case None => {}
    case Some(c) => if c in sv.chans then Elements(NamesOf(sv.sessions, sv.chans[c].members)) else {}
  }

  ghost predicate RosterExact(sv: Server, k: nat)
    requires k in sv.sessions
  {
    var r := Replay(sv.sessions[k].out);
    Distinct(r) && Elements(r) == MemberNames(sv, k)
  }

  ghost predicate RostersExact(sv: Server) {
    forall k :: k in sv.sessions && sv.sessions[k].open ==> RosterExact(sv, k)
  }

  ghost predicate Core(db: set<string>, sv: Server) {
    NamesInv(db, sv.sessions) && MembersInv(sv) && RegistryInv(sv)
  }

  // ---------- small facts ----------

  lemma {:induction false} WithoutSpec(members: seq<nat>, id: nat)
    requires NoDuplicates(members)
    ensures NoDuplicates(Without(members, id))
    ensures forall k :: k in Without(members, id) <==> k in members && k != id
  {
    if members != [] && members[0] != id {
      var rest := members[1..];
      WithoutSpec(rest, id);
      var r := Without(members, id);
      assert members == [members[0]] + rest;
      assert members[0] !in rest;
    }
  }

  /** The sessions' identities, names and states are untouched; only packets and channels moved. */
  ghost predicate SameNames(a: Sessions, b: Sessions) {
    a.Keys == b.Keys
    && forall k :: k in a ==> a[k].name == b[k].name && a[k].status == b[k].status && a[k].temp == b[k].temp
                              && a[k].open == b[k].open
  }

  lemma {:induction false} NamesOfSame(a: Sessions, b: Sessions, members: seq<nat>)
    requires SameNames(a, b)
    ensures NamesOf(a, members) == NamesOf(b, members)
  {
  }

  /** The names of the members are known, so they are case-distinct when the user table is. */
  lemma {:induction false} KnownNames(db: set<string>, sv: Server, c: nat)
    requires Core(db, sv) && c in sv.chans
    ensures Elements(NamesOf(sv.sessions, sv.chans[c].members)) <= Usable(db)
  {
    var members := sv.chans[c].members;
    forall x | x in NamesOf(sv.sessions, members)
      ensures x in Usable(db)
    {
      var i :| 0 <= i < |members| && NamesOf(sv.sessions, members)[i] == x;
      var k := members[i];
      assert k in sv.sessions && sv.sessions[k].chan == Some(c);
      assert PointsToOwn(sv, k) && NameFits(db, sv.sessions[k]);
    }
  }

  lemma {:induction false} NameListed(ss: Sessions, members: seq<nat>, k: nat)
    requires k in members
    ensures NameOf(ss, k) in NamesOf(ss, members)
  {
    var i :| 0 <= i < |members| && members[i] == k;
    assert NamesOf(ss, members)[i] == NameOf(ss, k);
  }

  // ---------- leaving a channel ----------

  /** What Exit touches. */
  lemma {:induction false} ExitShape(sv: Server, id: nat)
    requires MembersInv(sv) && id in sv.sessions
    ensures var next := Exit(sv, id);
      && SameNames(sv.sessions, next.sessions) && next.sessions[id].chan == None
      && (forall k :: k in sv.sessions && k != id ==> next.sessions[k].chan == sv.sessions[k].chan)
      && next.registry == sv.registry && next.nextChan == sv.nextChan && next.chans.Keys == sv.chans.Keys
      && (forall c :: c in sv.chans ==> next.chans[c] == sv.chans[c].(members := next.chans[c].members))
      && (forall c :: c in sv.chans ==> NoDuplicates(next.chans[c].members))
      && (forall c, k :: c in sv.chans ==> (k in next.chans[c].members <==> k in sv.chans[c].members && k != id))
  {
    assert PointsToOwn(sv, id);
    if sv.sessions[id].chan.Some? {
      var c := sv.sessions[id].chan.value;
      var members := Without(sv.chans[c].members, id);
      WithoutSpec(sv.chans[c].members, id);
      ExitSessions(sv, id, members, Exit(sv, id).sessions);
      assert Exit(sv, id).chans == sv.chans[c := sv.chans[c].(members := members)];
      assert forall d :: d in sv.chans && d != c ==> id !in sv.chans[d].members;
    } else {
      assert forall d :: d in sv.chans ==> id !in sv.chans[d].members;
    }
  }

  lemma {:induction false} ExitSessions(sv: Server, id: nat, members: seq<nat>, after: Sessions)
    requires id in sv.sessions
    requires var told := Broadcast(sv.sessions, members, id, Left(sv.sessions[id].name));
      after == told[id := Push(told[id], Users([])).(chan := None)]
    ensures SameNames(sv.sessions, after) && after[id].chan == None
    ensures forall k :: k in sv.sessions && k != id ==> after[k].chan == sv.sessions[k].chan
  {
  }

  lemma {:induction false} ExitMembers(sv: Server, id: nat)
    requires MembersInv(sv) && id in sv.sessions
    ensures MembersInv(Exit(sv, id))
  {
    ExitShape(sv, id);
    ShrunkMembers(sv, id, Exit(sv, id));
  }

  lemma {:induction false} ShrunkMembers(sv: Server, id: nat, next: Server)
    requires MembersInv(sv) && id in sv.sessions && SameNames(sv.sessions, next.sessions)
    requires next.sessions[id].chan == None
    requires forall k :: k in sv.sessions && k != id ==> next.sessions[k].chan == sv.sessions[k].chan
    requires next.nextChan == sv.nextChan && next.chans.Keys == sv.chans.Keys
    requires forall c :: c in sv.chans ==> NoDuplicates(next.chans[c].members)
    requires forall c, k :: c in sv.chans ==> (k in next.chans[c].members <==> k in sv.chans[c].members && k != id)
    ensures MembersInv(next)
  {
    forall k | k in next.sessions
      ensures PointsToOwn(next, k)
    {
      assert PointsToOwn(sv, k);
    }
  }

  lemma {:induction false} ExitKeeps(db: set<string>, sv: Server, id: nat)
    requires Core(db, sv) && id in sv.sessions
    ensures var next := Exit(sv, id);
      && Core(db, next) && SameNames(sv.sessions, next.sessions) && next.sessions[id].chan == None
      && next.registry == sv.registry && next.nextChan == sv.nextChan && next.chans.Keys == sv.chans.Keys
      && (OccupiedRegistered(sv) ==> OccupiedRegistered(next))
  {
    var next := Exit(sv, id);
    ExitShape(sv, id);
    ExitMembers(sv, id);
    if OccupiedRegistered(sv) {
      forall c | c in next.chans && next.chans[c].members != []
        ensures next.chans[c].name in next.registry && next.registry[next.chans[c].name] == c
      {
        assert next.chans[c].members[0] in sv.chans[c].members;
      }
    }
  }

  lemma {:induction false} ExitNames(db: set<string>, sv: Server, id: nat, c: nat)
    requires Core(db, sv) && id in sv.sessions && sv.sessions[id].chan == Some(c) && c in sv.chans
    ensures Elements(NamesOf(sv.sessions, Without(sv.chans[c].members, id)))
         == Elements(NamesOf(sv.sessions, sv.chans[c].members)) - {sv.sessions[id].name}
  {
    var ss, members := sv.sessions, sv.chans[c].members;
    var rest := Without(members, id);
    WithoutSpec(members, id);
    assert PointsToOwn(sv, id) && NameFits(db, ss[id]);
    forall x | x in NamesOf(ss, rest)
      ensures x in NamesOf(ss, members) && x != ss[id].name
    {
      var i :| 0 <= i < |rest| && NamesOf(ss, rest)[i] == x;
      NameListed(ss, members, rest[i]);
    }
    forall x | x in NamesOf(ss, members) && x != ss[id].name
      ensures x in NamesOf(ss, rest)
    {
      var i :| 0 <= i < |members| && NamesOf(ss, members)[i] == x;
      NameListed(ss, rest, members[i]);
    }
  }

  /** What a session has been sent once id has left. */
  function OutAfterExit(sv: Server, id: nat, k: nat): seq<Note>
    requires id in sv.sessions && k in sv.sessions
  {
    var out := sv.sessions[k].out;
    if sv.sessions[id].chan.None? then out
    else if k == id then out + [Users([])]
    else if sv.sessions[k].chan == sv.sessions[id].chan then out + [Left(sv.sessions[id].name)]
    else out
  }

  ghost function NamesAfterExit(sv: Server, id: nat, k: nat): set<string>
    requires id in sv.sessions && k in sv.sessions
  {
    if k == id then {}
    else if sv.sessions[k].chan.Some? && sv.sessions[k].chan == sv.sessions[id].chan
    then MemberNames(sv, k) - {sv.sessions[id].name} else MemberNames(sv, k)
  }

  lemma {:induction false} ExitSends(sv: Server, id: nat, k: nat)
    requires MembersInv(sv) && id in sv.sessions && k in sv.sessions && sv.sessions[k].open
    ensures k in Exit(sv, id).sessions && Exit(sv, id).sessions[k].out == OutAfterExit(sv, id, k)
  {
    assert PointsToOwn(sv, id) && PointsToOwn(sv, k);
    if sv.sessions[id].chan.Some? {
      WithoutSpec(sv.chans[sv.sessions[id].chan.value].members, id);
    }
  }

  lemma {:induction false} ExitMemberNames(db: set<string>, sv: Server, id: nat, k: nat)
    requires Core(db, sv) && id in sv.sessions && k in sv.sessions
    ensures k in Exit(sv, id).sessions && MemberNames(Exit(sv, id), k) == NamesAfterExit(sv, id, k)
  {
    var next := Exit(sv, id);
    ExitShape(sv, id);
    assert PointsToOwn(sv, id) && PointsToOwn(sv, k);
    if k != id && sv.sessions[k].chan.Some? {
      var c := sv.sessions[k].chan.value;
      NamesOfSame(sv.sessions, next.sessions, next.chans[c].members);
      if sv.sessions[id].chan == Some(c) {
        ExitNames(db, sv, id, c);
      }
    }
  }

  /** A fellow member removes exactly the leaver's name; the leaver clears its list. */
  lemma {:induction false} ExitReplay(db: set<string>, sv: Server, id: nat, k: nat)
    requires Core(db, sv) && CaseDistinct(Usable(db)) && id in sv.sessions && k in sv.sessions && RosterExact(sv, k)
    ensures var r := Replay(OutAfterExit(sv, id, k));
      Distinct(r) && Elements(r) == NamesAfterExit(sv, id, k)
  {
    var s := sv.sessions[k];
    if k == id {
      ReplaySnoc(s.out, Users([]));
    } else if s.chan.Some? && s.chan == sv.sessions[id].chan {
      FellowLeaves(db, sv, id, k);
    }
  }

  /** A session in the channel that id leaves. */
  lemma {:induction false} FellowLeaves(db: set<string>, sv: Server, id: nat, k: nat)
    requires Core(db, sv) && CaseDistinct(Usable(db)) && id in sv.sessions && k in sv.sessions && RosterExact(sv, k)
    requires k != id && sv.sessions[k].chan.Some? && sv.sessions[k].chan == sv.sessions[id].chan
    ensures var r := Replay(OutAfterExit(sv, id, k));
      Distinct(r) && Elements(r) == NamesAfterExit(sv, id, k)
  {
    var out, name, c := sv.sessions[k].out, sv.sessions[id].name, sv.sessions[k].chan.value;
    assert PointsToOwn(sv, id);
    KnownNames(db, sv, c);
    NameListed(sv.sessions, sv.chans[c].members, id);
    assert Elements(Replay(out)) + {name} <= Usable(db);
    ReplaySnoc(out, Left(name));
    RemoveExact(Replay(out), name);
  }

  lemma {:induction false} ExitRoster(db: set<string>, sv: Server, id: nat, k: nat)
    requires Core(db, sv) && CaseDistinct(Usable(db)) && id in sv.sessions && k in sv.sessions
    requires sv.sessions[k].open && RosterExact(sv, k)
    ensures k in Exit(sv, id).sessions && RosterExact(Exit(sv, id), k)
  {
    ExitSends(sv, id, k);
    ExitMemberNames(db, sv, id, k);
    ExitReplay(db, sv, id, k);
  }

  lemma {:induction false} ExitRosters(db: set<string>, sv: Server, id: nat)
    requires Core(db, sv) && CaseDistinct(Usable(db)) && RostersExact(sv) && id in sv.sessions
    ensures RostersExact(Exit(sv, id))
  {
    ExitShape(sv, id);
    forall k | k in Exit(sv, id).sessions && Exit(sv, id).sessions[k].open
      ensures RosterExact(Exit(sv, id), k)
    {
      ExitRoster(db, sv, id, k);
    }
  }

  // ---------- entering a channel ----------

  ghost predicate MayEnter(sv: Server, id: nat, c: nat) {
    id in sv.sessions && c in sv.chans && sv.sessions[id].chan == None && sv.sessions[id].status == Authenticated
  }

  /** What Enter touches. */
  lemma {:induction false} EnterShape(sv: Server, id: nat, c: nat)
    requires MembersInv(sv) && MayEnter(sv, id, c)
    ensures var next := Enter(sv, id, c);
      && id !in sv.chans[c].members
      && next == sv.(sessions := next.sessions, chans := sv.chans[c := sv.chans[c].(members := sv.chans[c].members + [id])])
      && SameNames(sv.sessions, next.sessions) && next.sessions[id].chan == Some(c)
      && (forall k :: k in sv.sessions && k != id ==> next.sessions[k].chan == sv.sessions[k].chan)
  {
    assert PointsToOwn(sv, id);
  }

  lemma {:induction false} EnterMembers(sv: Server, id: nat, c: nat)
    requires MembersInv(sv) && MayEnter(sv, id, c)
    ensures MembersInv(Enter(sv, id, c))
  {
    EnterShape(sv, id, c);
    assert NoDuplicates(sv.chans[c].members + [id]);
    GrownMembers(sv, id, c, Enter(sv, id, c));
  }

  lemma {:induction false} GrownMembers(sv: Server, id: nat, c: nat, next: Server)
    requires MembersInv(sv) && MayEnter(sv, id, c) && id !in sv.chans[c].members
    requires NoDuplicates(sv.chans[c].members + [id])
    requires next == sv.(sessions := next.sessions, chans := sv.chans[c := sv.chans[c].(members := sv.chans[c].members + [id])])
    requires SameNames(sv.sessions, next.sessions) && next.sessions[id].chan == Some(c)
    requires forall k :: k in sv.sessions && k != id ==> next.sessions[k].chan == sv.sessions[k].chan
    ensures MembersInv(next)
  {
    forall d, k | d in next.chans && k in next.chans[d].members
      ensures k in next.sessions && next.sessions[k].chan == Some(d)
    {
      if d != c {
        assert sv.sessions[k].chan == Some(d);
        assert PointsToOwn(sv, id);
      }
    }
    forall k | k in next.sessions
      ensures PointsToOwn(next, k)
    {
      assert PointsToOwn(sv, k);
    }
  }

  lemma {:induction false} EnterKeeps(db: set<string>, sv: Server, id: nat, c: nat)
    requires Core(db, sv) && MayEnter(sv, id, c)
    ensures var next := Enter(sv, id, c);
      && Core(db, next) && SameNames(sv.sessions, next.sessions)
      && (OccupiedRegistered(sv) && sv.chans[c].name in sv.registry && sv.registry[sv.chans[c].name] == c
          ==> OccupiedRegistered(next))
  {
    EnterShape(sv, id, c);
    EnterMembers(sv, id, c);
  }

  lemma {:induction false} EnterNames(ss: Sessions, members: seq<nat>, id: nat)
    ensures NamesOf(ss, members + [id]) == NamesOf(ss, members) + [NameOf(ss, id)]
    ensures Elements(NamesOf(ss, members + [id])) == Elements(NamesOf(ss, members)) + {NameOf(ss, id)}
  {
  }

  /** What a session has been sent once id has entered c. */
  function OutAfterEnter(sv: Server, id: nat, c: nat, k: nat): seq<Note>
    requires id in sv.sessions && k in sv.sessions && c in sv.chans
  {
    var out := sv.sessions[k].out;
    if k == id then out + [Users(NamesOf(sv.sessions, sv.chans[c].members + [id]))]
    else if sv.sessions[k].chan == Some(c) then out + [Joined(sv.sessions[id].name)]
    else out
  }

  ghost function NamesAfterEnter(sv: Server, id: nat, c: nat, k: nat): set<string>
    requires id in sv.sessions && k in sv.sessions && c in sv.chans
  {
    if k == id then Elements(NamesOf(sv.sessions, sv.chans[c].members + [id]))
    else if sv.sessions[k].chan == Some(c) then MemberNames(sv, k) + {sv.sessions[id].name}
    else MemberNames(sv, k)
  }

  lemma {:induction false} EnterSends(sv: Server, id: nat, c: nat, k: nat)
    requires MembersInv(sv) && MayEnter(sv, id, c) && k in sv.sessions && sv.sessions[k].open
    ensures k in Enter(sv, id, c).sessions && Enter(sv, id, c).sessions[k].out == OutAfterEnter(sv, id, c, k)
  {
    assert PointsToOwn(sv, id) && PointsToOwn(sv, k);
  }

  lemma {:induction false} EnterMemberNames(db: set<string>, sv: Server, id: nat, c: nat, k: nat)
    requires Core(db, sv) && MayEnter(sv, id, c) && k in sv.sessions
    ensures k in Enter(sv, id, c).sessions && MemberNames(Enter(sv, id, c), k) == NamesAfterEnter(sv, id, c, k)
  {
    var next := Enter(sv, id, c);
    EnterShape(sv, id, c);
    EnterNames(sv.sessions, sv.chans[c].members, id);
    if next.sessions[k].chan.Some? {
      NamesOfSame(sv.sessions, next.sessions, next.chans[next.sessions[k].chan.value].members);
    }
  }

  lemma {:induction false} TakesOverList(db: set<string>, out: seq<Note>, names: seq<string>)
    requires CaseDistinct(Usable(db)) && Elements(names) <= Usable(db)
    ensures Distinct(Replay(out + [Users(names)])) && Elements(Replay(out + [Users(names)])) == Elements(names)
  {
    ReplaySnoc(out, Users(names));
    AddAllExact(names);
  }

  /** A fellow member adds exactly the newcomer's name; the newcomer takes over the list. */
  lemma {:induction false} EnterReplay(db: set<string>, sv: Server, id: nat, c: nat, k: nat)
    requires Core(db, sv) && CaseDistinct(Usable(db)) && MayEnter(sv, id, c) && k in sv.sessions && RosterExact(sv, k)
    ensures var r := Replay(OutAfterEnter(sv, id, c, k));
      Distinct(r) && Elements(r) == NamesAfterEnter(sv, id, c, k)
  {
    EnterKnown(db, sv, id, c);
    if k == id {
      TakesOverList(db, sv.sessions[k].out, NamesOf(sv.sessions, sv.chans[c].members + [id]));
    } else if sv.sessions[k].chan == Some(c) {
      FellowReplay(db, sv, id, c, k);
    }
  }

  /** A session that is in the channel already adds the one who enters. */
  lemma {:induction false} FellowReplay(db: set<string>, sv: Server, id: nat, c: nat, k: nat)
    requires Core(db, sv) && CaseDistinct(Usable(db)) && MayEnter(sv, id, c) && k in sv.sessions && RosterExact(sv, k)
    requires k != id && sv.sessions[k].chan == Some(c)
    requires Elements(NamesOf(sv.sessions, sv.chans[c].members + [id])) <= Usable(db)
    ensures var r := Replay(OutAfterEnter(sv, id, c, k));
      Distinct(r) && Elements(r) == NamesAfterEnter(sv, id, c, k)
  {
    var out, name := sv.sessions[k].out, sv.sessions[id].name;
    EnterNames(sv.sessions, sv.chans[c].members, id);
    ReplaySnoc(out, Joined(name));
    AddExact(Replay(out), name);
  }

  lemma {:induction false} EnterRoster(db: set<string>, sv: Server, id: nat, c: nat, k: nat)
    requires Core(db, sv) && CaseDistinct(Usable(db)) && MayEnter(sv, id, c) && k in sv.sessions
    requires sv.sessions[k].open && RosterExact(sv, k)
    ensures k in Enter(sv, id, c).sessions && RosterExact(Enter(sv, id, c), k)
  {
    EnterSends(sv, id, c, k);
    EnterMemberNames(db, sv, id, c, k);
    EnterReplay(db, sv, id, c, k);
  }

  lemma {:induction false} EnterKnown(db: set<string>, sv: Server, id: nat, c: nat)
    requires Core(db, sv) && MayEnter(sv, id, c)
    ensures Elements(NamesOf(sv.sessions, sv.chans[c].members + [id])) <= Usable(db)
  {
    KnownNames(db, sv, c);
    EnterNames(sv.sessions, sv.chans[c].members, id);
    assert NameFits(db, sv.sessions[id]);
  }

  lemma {:induction false} EnterRosters(db: set<string>, sv: Server, id: nat, c: nat)
    requires Core(db, sv) && CaseDistinct(Usable(db)) && RostersExact(sv) && MayEnter(sv, id, c)
    ensures RostersExact(Enter(sv, id, c))
  {
    EnterShape(sv, id, c);
    forall k | k in Enter(sv, id, c).sessions && Enter(sv, id, c).sessions[k].open
      ensures RosterExact(Enter(sv, id, c), k)
    {
      EnterRoster(db, sv, id, c, k);
    }
  }
}
