/**
 The server's sessions, channels and channel registry as values: login, the
 channel operations, disconnects and the two sweeps.  Channels are objects with
 an identity of their own; the registry maps names to them.
 */
module ChatServer {
  import opened Common
  import opened Wrappers
  import opened Roster

  const DEFAULT: string := "Default"

  /** The SHA-256 digest of the empty password, in hexadecimal; passwords travel as digests. */
  const NO_PASSWORD: string := "e3b0c44298fc1c149afbf4c8996fb92427ae41e4649b934ca495991b7852b855"

  datatype Status = Rejected | Connected | LoginStep1 | LoginStep2 | Authenticated

  datatype Sess = Sess(status: Status, temp: string, name: string, chan: Option<nat>, open: bool, out: seq<Note>)

  /** The members are kept in the order the container iterates over them. */
  datatype Chan = Chan(name: string, pass: string, members: seq<nat>)

  type Sessions = map<nat, Sess>

  /** Channel objects have the identities below nextChan. */
  datatype Server = Server(sessions: Sessions, chans: map<nat, Chan>, registry: map<string, nat>, nextChan: nat)

  function Empty(): Server {
    Server(map[], map[], map[], 0)
  }

  // ---------- packets to sessions ----------

  /** SendPacket: a closed session gets nothing. */
  function Push(s: Sess, n: Note): Sess {
    if s.open then s.(out := s.out + [n]) else s
  }

  function PushTo(ss: Sessions, id: nat, n: Note): Sessions {
    if id in ss then ss[id := Push(ss[id], n)] else ss
  }

  function Broadcast(ss: Sessions, members: seq<nat>, except: nat, n: Note): Sessions {
    map k | k in ss :: if k in members && k != except then Push(ss[k], n) else ss[k]
  }

  function NameOf(ss: Sessions, id: nat): string {
    if id in ss then ss[id].name else ""
  }

  function NamesOf(ss: Sessions, members: seq<nat>): seq<string> {
    seq(|members|, i requires 0 <= i < |members| => NameOf(ss, members[i]))
  }

  // ---------- entering and leaving a channel ----------

  function Without(members: seq<nat>, id: nat): (r: seq<nat>)
    ensures id !in members ==> r == members
    ensures forall k :: k in r ==> k in members
  {
    if members == [] then [] else if members[0] == id then members[1..] else [members[0]] + Without(members[1..], id)
  }

  /** Channel::AddSession and setChannel. */
  function Enter(sv: Server, id: nat, c: nat): Server
    requires id in sv.sessions && c in sv.chans
  {
    var members := if id in sv.chans[c].members then sv.chans[c].members else sv.chans[c].members + [id];
    var told := Broadcast(sv.sessions, members, id, Joined(sv.sessions[id].name));
    var listed := Push(told[id], Users(NamesOf(sv.sessions, members)));
    sv.(sessions := told[id := listed.(chan := Some(c))], chans := sv.chans[c := sv.chans[c].(members := members)])
  }

  /** Channel::RemoveSession and setChannel(NULL). */
  function Exit(sv: Server, id: nat): Server
    requires id in sv.sessions
  {
    var s := sv.sessions[id];
    if s.chan.None? || s.chan.value !in sv.chans then sv else
    var c := s.chan.value;
    if id !in sv.chans[c].members then sv.(sessions := sv.sessions[id := s.(chan := None)]) else
    var members := Without(sv.chans[c].members, id);
    var told := Broadcast(sv.sessions, members, id, Left(s.name));
    sv.(sessions := told[id := Push(told[id], Users([])).(chan := None)],
        chans := sv.chans[c := sv.chans[c].(members := members)])
  }

  function Tell(sv: Server, id: nat): Server {
    sv.(sessions := PushTo(sv.sessions, id, SystemText))
  }

  function Join(sv: Server, id: nat, name: string, pass: string): Server
    requires id in sv.sessions
  {
    if name == "" || name !in sv.registry || sv.registry[name] !in sv.chans then Tell(sv, id)
    else if sv.chans[sv.registry[name]].pass != pass then Tell(sv, id)
    else Tell(Enter(Exit(sv, id), id, sv.registry[name]), id)
  }

  /** A new channel object under a name; an older registration of the name is overwritten. */
  function Register(sv: Server, name: string, pass: string): Server {
    sv.(chans := sv.chans[sv.nextChan := Chan(name, pass, [])], registry := sv.registry[name := sv.nextChan],
        nextChan := sv.nextChan + 1)
  }

  /** FindChannel misses the empty name, so creating it always succeeds. */
  function Create(sv: Server, id: nat, name: string, pass: string): Server
    requires id in sv.sessions
  {
    if name == DEFAULT || (name != "" && name in sv.registry) then Tell(sv, id)
    else Tell(Enter(Exit(Register(sv, name, pass), id), id, sv.nextChan), id)
  }

  function JoinDefault(sv: Server, id: nat): Server
    requires id in sv.sessions
  {
    var sv1 := if DEFAULT in sv.registry then sv else Register(sv, DEFAULT, NO_PASSWORD);
    if sv1.registry[DEFAULT] !in sv1.chans then sv else Tell(Enter(sv1, id, sv1.registry[DEFAULT]), id)
  }

  /** The sweep of the channel manager: empty channels go, except the one called Default. */
  function SweepChannels(sv: Server): Server {
    sv.(registry := map n | n in sv.registry && Kept(sv, sv.registry[n]) :: sv.registry[n])
  }

  predicate Kept(sv: Server, c: nat) {
    c in sv.chans && (sv.chans[c].members != [] || sv.chans[c].name == DEFAULT)
  }

  // ---------- login ----------

  predicate NameInUse(ss: Sessions, name: string) {
    exists k :: k in ss && ss[k].name == name
  }

  function SetSess(sv: Server, id: nat, s: Sess): Server {
    sv.(sessions := sv.sessions[id := s])
  }

  /** HandleLogin; the flags are the outcomes of the nonce comparison and of the key test. */
  function Login(db: set<string>, sv: Server, id: nat, user: string, nonceOk: bool, testOk: bool): Server
    requires id in sv.sessions
  {
    var s := sv.sessions[id];
    match s.status
    case Connected => SetSess(sv, id, s.(status := LoginStep1))
    case LoginStep1 =>
      var s1 := if |user| <= MAX_USER_LEN then s.(temp := user) else s;
      if |user| <= MAX_USER_LEN && user in db && nonceOk then SetSess(sv, id, s1.(status := LoginStep2))
      else SetSess(sv, id, s1.(status := Rejected, open := false))
    case LoginStep2 =>
      if testOk && !NameInUse(sv.sessions, s.temp) then
        JoinDefault(SetSess(sv, id, SetUsername(s).(status := Authenticated)), id)
      else SetSess(sv, id, s.(status := Rejected, open := false))
    case _ => sv
  }

  function SetUsername(s: Sess): Sess {
    if |s.temp| > MAX_USER_LEN then s else s.(name := s.temp)
  }

  /** LoginTimer with the timer passed. */
  function Timeout(s: Sess): Sess {
    if s.status == Authenticated || s.status == Connected || s.status == Rejected then s
    else s.(status := Rejected, open := false)
  }

  // ---------- runs ----------

  datatype Event =
    | Accept(id: nat)
    | LoginPacket(id: nat, user: string, nonceOk: bool, testOk: bool)
    | LoginTimeout(id: nat)
    | Close(id: nat)
    | Drop(id: nat)
    | JoinChannel(id: nat, name: string, pass: string)
    | CreateChannel(id: nat, name: string, pass: string)
    | LeaveChannel(id: nat)
    | Sweep

  /** Only an authenticated session reaches the channel handlers; only an open one is handled at all. */
  predicate Live(sv: Server, id: nat) {
    id in sv.sessions && sv.sessions[id].open
  }

  predicate LoggedIn(sv: Server, id: nat) {
    Live(sv, id) && sv.sessions[id].status == Authenticated
  }

  function Step(db: set<string>, sv: Server, ev: Event): Server {
    match ev
    case Accept(id) =>
      if id in sv.sessions then sv else SetSess(sv, id, Sess(Connected, "", "", None, true, []))
    case LoginPacket(id, user, nonceOk, testOk) => if Live(sv, id) then Login(db, sv, id, user, nonceOk, testOk) else sv
    case LoginTimeout(id) => if Live(sv, id) then SetSess(sv, id, Timeout(sv.sessions[id])) else sv
    case Close(id) => if id in sv.sessions then SetSess(sv, id, sv.sessions[id].(open := false)) else sv
    case Drop(id) =>
      if id !in sv.sessions || sv.sessions[id].open then sv else
      var sv1 := Exit(sv, id);
      sv1.(sessions := sv1.sessions - {id})
    case JoinChannel(id, name, pass) => if LoggedIn(sv, id) then Join(sv, id, name, pass) else sv
    case CreateChannel(id, name, pass) => if LoggedIn(sv, id) then Create(sv, id, name, pass) else sv
    case LeaveChannel(id) => if LoggedIn(sv, id) then Tell(Exit(sv, id), id) else sv
    case Sweep => SweepChannels(sv)
  }

  function Run(db: set<string>, sv: Server, evs: seq<Event>): Server {
    if evs == [] then sv else Step(db, Run(db, sv, evs[..|evs| - 1]), evs[|evs| - 1])
  }
}
