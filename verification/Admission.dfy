/**
 Admission of sessions as values: the queue of new sessions, the session map, the
 waiting queue with its position packets, and the two limits (zero means none).
 */
module Admission {

  /** positions holds the queue positions sent to the session, oldest first. */
  datatype Sess = Sess(open: bool, inQueue: bool, loginStarted: bool, positions: seq<nat>)

  /**
   Sessions are known by an identity that is never used again.  The last three
   fields are histories: who entered the map, who got an active slot, and who was
   removed while waiting.
   */
  datatype Manager = Manager(
    objs: map<nat, Sess>, sessions: set<nat>, pending: seq<nat>, waiting: seq<nat>,
    activeLimit: nat, queueLimit: nat,
    admitted: seq<nat>, activated: seq<nat>, abandoned: set<nat>)

  function Initial(activeLimit: nat, queueLimit: nat): Manager {
    Manager(map[], {}, [], [], activeLimit, queueLimit, [], [], {})
  }

  function ActiveCount(m: Manager): int {
    |m.sessions| - |m.waiting|
  }

  // ---------- packets and flags ----------

  /** SendWaitQueue: a closed session gets nothing. */
  function SendPosition(objs: map<nat, Sess>, id: nat, position: nat): map<nat, Sess> {
    if id in objs && objs[id].open then objs[id := objs[id].(positions := objs[id].positions + [position])] else objs
  }

  function SetInQueue(objs: map<nat, Sess>, id: nat, state: bool): map<nat, Sess> {
    if id in objs then objs[id := objs[id].(inQueue := state)] else objs
  }

  /** HandleLogin on a session that is only connected. */
  function StartLogin(objs: map<nat, Sess>, id: nat): map<nat, Sess> {
    if id in objs then objs[id := objs[id].(loginStarted := true)] else objs
  }

  function Activate(objs: map<nat, Sess>, id: nat): map<nat, Sess> {
    StartLogin(SetInQueue(objs, id, false), id)
  }

  /** Tell every session from index i on its 1-based place. */
  function NotifyFrom(objs: map<nat, Sess>, waiting: seq<nat>, i: nat): map<nat, Sess>
    requires i <= |waiting|
    decreases |waiting| - i
  {
    if i == |waiting| then objs else NotifyFrom(SendPosition(objs, waiting[i], i + 1), waiting, i + 1)
  }

  function IndexOf(waiting: seq<nat>, id: nat): (i: nat)
    ensures i <= |waiting|
    ensures i < |waiting| ==> waiting[i] == id
    ensures i == |waiting| ==> id !in waiting
    ensures id !in waiting[..i]
  {
    if waiting == [] || waiting[0] == id then 0 else
    var i := 1 + IndexOf(waiting[1..], id);
    assert waiting[..i] == [waiting[0]] + waiting[1..][..i - 1];
    i
  }

  // ---------- the operations ----------

  /** AddSession, called when a connection is accepted. */
  function Connect(m: Manager, id: nat): Manager {
    if m.queueLimit == 0 || |m.waiting| + |m.pending| < m.queueLimit
    then m.(objs := m.objs[id := Sess(true, false, false, [])], pending := m.pending + [id])
    else m
  }

  /** AddSession_ on the oldest new session. */
  function AddOne(m: Manager): Manager
    requires m.pending != []
  {
    var id := m.pending[0];
    var m1 := m.(pending := m.pending[1..], sessions := m.sessions + {id}, admitted := m.admitted + [id]);
    if m.activeLimit != 0 && ActiveCount(m) >= m.activeLimit then
      var waiting := m.waiting + [id];
      m1.(waiting := waiting,
          objs := SendPosition(SetInQueue(m.objs, id, true), id, IndexOf(waiting, id) + 1))
    else
      m1.(objs := StartLogin(m.objs, id), activated := m.activated + [id])
  }

  function AddAll(m: Manager): Manager
    decreases |m.pending|
  {
    if m.pending == [] then m else AddAll(AddOne(m))
  }

  function EraseFound(m: Manager, id: nat): Manager {
    var i := IndexOf(m.waiting, id);
    if i < |m.waiting|
    then m.(objs := Activate(m.objs, id), waiting := m.waiting[..i] + m.waiting[i + 1..], abandoned := m.abandoned + {id})
    else m
  }

  /** The slots taken once the session is gone; the session itself counts only if it was not waiting. */
  function SlotsAfter(m: Manager, id: nat): int {
    if id !in m.waiting && ActiveCount(m) > 0 then ActiveCount(m) - 1 else ActiveCount(m)
  }

  predicate TakesNext(m: Manager, id: nat) {
    (m.activeLimit == 0 || SlotsAfter(m, id) < m.activeLimit) && EraseFound(m, id).waiting != []
  }

  /** RemoveQueuedSession: erase from the middle, pop the front, both or neither; then tell who moved. */
  function RemoveQueued(m: Manager, id: nat): Manager {
    var m1 := EraseFound(m, id);
    if TakesNext(m, id) then
      var next := m1.waiting[0];
      var rest := m1.waiting[1..];
      m1.(waiting := rest, objs := NotifyFrom(Activate(m1.objs, next), rest, 0), activated := m1.activated + [next])
    else if id in m.waiting then
      m1.(objs := NotifyFrom(m1.objs, m1.waiting, IndexOf(m.waiting, id)))
    else
      m1
  }

  /** The sweep's body for a session whose socket is closed. */
  function Sweep(m: Manager, id: nat): Manager {
    RemoveQueued(m, id).(sessions := m.sessions - {id})
  }

  // ---------- runs ----------

  datatype Event = Accept(id: nat) | Close(id: nat) | TakeNew | Remove(id: nat)

  function Step(m: Manager, ev: Event): Manager {
    match ev
    case Accept(id) => if id in m.objs then m else Connect(m, id)
    case Close(id) => if id in m.objs then m.(objs := m.objs[id := m.objs[id].(open := false)]) else m
    case TakeNew => if m.pending == [] then m else AddOne(m)
    case Remove(id) => if id in m.sessions && id in m.objs && !m.objs[id].open then Sweep(m, id) else m
  }

  function Run(m: Manager, evs: seq<Event>): Manager {
    if evs == [] then m else Step(Run(m, evs[..|evs| - 1]), evs[|evs| - 1])
  }
}
