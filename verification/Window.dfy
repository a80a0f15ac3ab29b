/**
 The protocol between clients and servers: client threads keep a window of requests in flight and
 poll a board of result slots; server threads take requests from the queue, run them on the store
 and write the answers to the board.

 Here the ring is a bounded queue and the hash table an atomic map. KvSystem has the ring and the
 table themselves in their place, and KvEndToEnd carries what is shown here over to it. A message
 names the slot of its result by client and slot number; `Bytes` gives the byte offset that the
 programs use.

 History variables, read by no step: the `index` of a message (which request it carries),
 `log`, `logAt`, `place` and `taken`.
 */
module Window {
  import opened Wrappers
  import opened Ring

  datatype Request = Request(k: Uint32, v: Uint32, t: RequestType)

  datatype Message = Message(t: RequestType, k: Uint32, v: Uint32, client: nat, slot: nat, ready: bool, index: nat)

  const EMPTY := Message(PUT, 0, 0, 0, 0, false, 0)

  datatype ClientPc = Submitting | Checking | Clearing | Copying | Finished

  datatype Client = Client(
    reqs: seq<Request>,
    res: seq<Message>,
    lastSubmitted: nat,
    lastCompleted: nat,
    nxtComp: nat,
    pc: ClientPc)

  datatype Server =
    | Waiting
    | Got(bd: Message)
    | Copied(bd: Message)
    | Executed(bd: Message, output: Uint32)
    | Answered(bd: Message, output: Uint32)

  /** One operation on the store, with its output. */
  datatype Entry = Entry(client: nat, index: nat, req: Request, output: Uint32)

  /** Where a request in flight is. */
  datatype Place = InQueue(pos: nat) | AtServer(server: nat) | OnBoard

  type Positive = x: int | x > 0 witness 1

  /** The remainder of `i` by the window size: the slot of request `i`. */
  function SlotOf(i: nat, win: Positive): (j: nat)
    ensures j < win
  {
    if i < win then i else SlotOf(i - win, win)
  }

  /** Slots of the board that were never written still hold the zeroes that memory was cleared to. */
  datatype System = System(
    win: Positive,
    clients: seq<Client>,
    servers: seq<Server>,
    queue: seq<Message>,
    board: map<(nat, nat), Message>,
    store: map<Uint32, Uint32>,
    log: seq<Entry>,
    logAt: map<(nat, nat), nat>,
    place: map<(nat, nat), Place>,
    taken: nat)

  datatype Choice = ClientStep(c: nat) | ServerStep(x: nat)

  function NewClient(reqs: seq<Request>): Client {
    Client(reqs, seq(|reqs|, _ => EMPTY), 0, 0, 0, if reqs == [] then Finished else Submitting)
  }

  function InitSystem(win: Positive, requests: seq<seq<Request>>, servers: nat): System {
    System(win, seq(|requests|, c requires 0 <= c < |requests| => NewClient(requests[c])), seq(servers, _ => Waiting),
           [], map[], map[], [], map[], map[], 0)
  }

  function Slot(s: System, c: nat, j: nat): Message {
    if (c, j) in s.board then s.board[(c, j)] else EMPTY
  }

  /** The descriptor that carries request `i` of client `c`. */
  function MessageFor(s: System, c: nat, i: nat): Message
    requires c < |s.clients| && i < |s.clients[c].reqs|
  {
    var r := s.clients[c].reqs[i];
    Message(r.t, r.k, r.v, c, SlotOf(i, s.win), false, i)
  }

  // ---------------------------------------------------------------------------
  // Client steps

  function ClientMove(s: System, c: nat): Option<System>
    requires c < |s.clients|
  {
    var cl := s.clients[c];
    match cl.pc
    case Submitting =>
      if cl.lastSubmitted - cl.lastCompleted < s.win && cl.lastSubmitted < |cl.reqs| then
        if |s.queue| < RING_SIZE then Some(Submit(s, c)) else None
      else Some(SetPc(s, c, Checking))
    case Checking =>
      if Slot(s, c, cl.nxtComp).ready then Some(SetPc(s, c, Clearing))
      else if cl.lastSubmitted < |cl.reqs| then Some(SetPc(s, c, Submitting))
      else if cl.lastCompleted < |cl.reqs| then Some(s)
      else Some(SetPc(s, c, Finished))
    case Clearing => Some(Clear(s, c))
    case Copying => if cl.lastCompleted < |cl.res| then Some(Complete(s, c)) else None
    case Finished => None
  }

  function SetPc(s: System, c: nat, pc: ClientPc): System
    requires c < |s.clients|
  {
    s.(clients := s.clients[c := s.clients[c].(pc := pc)])
  }

  function Submit(s: System, c: nat): System
    requires c < |s.clients| && s.clients[c].lastSubmitted < |s.clients[c].reqs|
  {
    var i := s.clients[c].lastSubmitted;
    s.(clients := s.clients[c := s.clients[c].(lastSubmitted := i + 1)],
       queue := s.queue + [MessageFor(s, c, i)],
       place := s.place[(c, i) := InQueue(s.taken + |s.queue|)])
  }

  function Clear(s: System, c: nat): System
    requires c < |s.clients|
  {
    var cl := s.clients[c];
    s.(clients := s.clients[c := cl.(pc := Copying)],
       board := s.board[(c, cl.nxtComp) := Slot(s, c, cl.nxtComp).(ready := false)])
  }

  function Complete(s: System, c: nat): System
    requires c < |s.clients| && s.clients[c].lastCompleted < |s.clients[c].res|
  {
    var cl := s.clients[c];
    s.(clients := s.clients[c := cl.(
         res := cl.res[cl.lastCompleted := Slot(s, c, cl.nxtComp)],
         lastCompleted := cl.lastCompleted + 1,
         nxtComp := SlotOf(cl.nxtComp + 1, s.win),
         pc := Checking)])
  }

  // ---------------------------------------------------------------------------
  // Server steps

  function ServerMove(s: System, x: nat): Option<System>
    requires x < |s.servers|
  {
    match s.servers[x]
    case Waiting => if s.queue == [] then None else Some(TakeRequest(s, x))
    case Got(bd) => Some(WriteSlot(s, x, Copied(bd), bd, bd))
    case Copied(bd) => Some(ExecuteRequest(s, x, bd))
    case Executed(bd, output) =>
      var slot := Slot(s, bd.client, bd.slot);
      Some(WriteSlot(s, x, Answered(bd, output), bd, if bd.t == GET then slot.(v := output) else slot))
    case Answered(bd, _) => Some(Ready(s, x, bd))
  }

  function TakeRequest(s: System, x: nat): System
    requires x < |s.servers| && s.queue != []
  {
    s.(servers := s.servers[x := Got(s.queue[0])],
       queue := s.queue[1..],
       taken := s.taken + 1,
       place := s.place[(s.queue[0].client, s.queue[0].index) := AtServer(x)])
  }

  function WriteSlot(s: System, x: nat, sv: Server, bd: Message, m: Message): System
    requires x < |s.servers|
  {
    s.(servers := s.servers[x := sv], board := s.board[(bd.client, bd.slot) := m])
  }

  /** `put` or `get` on the store, at the instant where it takes effect. */
  function ExecuteRequest(s: System, x: nat, bd: Message): System
    requires x < |s.servers|
  {
    var output := Output(s.store, bd.t, bd.k, bd.v);
    s.(servers := s.servers[x := Executed(bd, output)],
       store := Store(s.store, bd.t, bd.k, bd.v),
       logAt := s.logAt[(bd.client, bd.index) := |s.log|],
       log := s.log + [Entry(bd.client, bd.index, Request(bd.k, bd.v, bd.t), output)])
  }

  function Ready(s: System, x: nat, bd: Message): System
    requires x < |s.servers|
  {
    WriteSlot(s, x, Waiting, bd, Slot(s, bd.client, bd.slot).(ready := true)).(
      place := s.place[(bd.client, bd.index) := OnBoard])
  }

  /** What a request leaves in the value field of its answer. */
  function Output(m: map<Uint32, Uint32>, t: RequestType, k: Uint32, v: Uint32): Uint32 {
    match t
    case PUT => v
    case GET => if k in m then m[k] else 0
  }

  function Store(m: map<Uint32, Uint32>, t: RequestType, k: Uint32, v: Uint32): map<Uint32, Uint32> {
    if t == PUT then m[k := v] else m
  }

  /** None: the thread has to wait, or there is no such thread. */
  function Step(s: System, ch: Choice): Option<System> {
    match ch
    case ClientStep(c) => if c < |s.clients| then ClientMove(s, c) else None
    case ServerStep(x) => if x < |s.servers| then ServerMove(s, x) else None
  }

  // ---------------------------------------------------------------------------
  // Byte offsets

  const DESCRIPTOR_BYTES: nat := 20

  /** The byte offset of slot `j` of client `c` in the shared memory, after the ring itself. */
  function Bytes(ringBytes: nat, win: nat, c: nat, j: nat): nat {
    ringBytes + (c * win + j) * DESCRIPTOR_BYTES
  }

  /** Different slots never share a byte, and all lie in the file after the ring. */
  lemma SlotsDisjoint(ringBytes: nat, win: nat, clients: nat, c: nat, j: nat, c': nat, j': nat)
    requires c < clients && c' < clients && j < win && j' < win
    ensures ringBytes <= Bytes(ringBytes, win, c, j)
    ensures Bytes(ringBytes, win, c, j) + DESCRIPTOR_BYTES <= ringBytes + (clients * win) * DESCRIPTOR_BYTES
    ensures (c, j) != (c', j') ==>
              || Bytes(ringBytes, win, c, j) + DESCRIPTOR_BYTES <= Bytes(ringBytes, win, c', j')
              || Bytes(ringBytes, win, c', j') + DESCRIPTOR_BYTES <= Bytes(ringBytes, win, c, j)
  {
    RowsApart(win, c, clients);
    if c < c' {
      RowsApart(win, c, c');
    } else if c' < c {
      RowsApart(win, c', c);
    }
  }

  lemma RowsApart(win: nat, c: nat, d: nat)
    requires c < d
    ensures 0 <= c * win && c * win + win <= d * win
  {
    assert (d - c - 1) * win >= 0;
    assert d * win == c * win + win + (d - c - 1) * win;
  }
}

/** Every answer reaches the request it belongs to, whatever the threads do. */
module WindowProtocol {
  import opened Wrappers
  import opened Window

  // ---------------------------------------------------------------------------
  // Slots of a window

  /** `SlotOf` is the remainder operator. */
  lemma {:induction false} SlotIsRemainder(i: nat, win: Positive)
    ensures SlotOf(i, win) == i % win
  {
    if i >= win {
      SlotIsRemainder(i - win, win);
      var q, r := (i - win) / win, (i - win) % win;
      assert i == (q + 1) * win + r;
      Quotient(i, q + 1, r, win);
    }
  }

  lemma Quotient(i: nat, q: nat, r: nat, win: Positive)
    requires i == q * win + r && r < win
    ensures i % win == r
  {
    var d := i / win - q;
    assert d * win == r - i % win;
    assert d >= 1 ==> (d - 1) * win >= 0;
    assert d <= -1 ==> (-d - 1) * win >= 0;
  }

  /** Two requests in one window never share a slot. */
  lemma {:induction false} SlotDistinct(i: nat, j: nat, win: Positive)
    requires i < j < i + win
    ensures SlotOf(i, win) != SlotOf(j, win)
  {
    if i >= win {
      SlotDistinct(i - win, j - win, win);
    }
  }

  lemma {:induction false} NextSlot(i: nat, win: Positive)
    ensures SlotOf(SlotOf(i, win) + 1, win) == SlotOf(i + 1, win)
  {
    if i >= win {
      NextSlot(i - win, win);
    }
  }

  // ---------------------------------------------------------------------------
  // The invariant

  ghost predicate InFlight(s: System, c: nat, i: nat) {
    c < |s.clients| && s.clients[c].lastCompleted <= i < s.clients[c].lastSubmitted && i < |s.clients[c].reqs|
  }

  /** The message is exactly the one that carries a request in flight. */
  ghost predicate Carries(s: System, m: Message) {
    InFlight(s, m.client, m.index) && m == MessageFor(s, m.client, m.index)
  }

  /** The store has run request `i` of client `c`; `m` is its message with the answer. */
  ghost predicate Answers(s: System, c: nat, i: nat, m: Message) {
    && c < |s.clients| && i < |s.clients[c].reqs|
    && (c, i) in s.logAt && s.logAt[(c, i)] < |s.log|
    && m == MessageFor(s, c, i).(v := s.log[s.logAt[(c, i)]].output, ready := m.ready)
  }

  ghost predicate PlaceIs(s: System, c: nat, i: nat, p: Place) {
    (c, i) in s.place && s.place[(c, i)] == p
  }

  /** The counters of client `c` are those of a window, and what it is about to take is there. */
  ghost predicate WindowOk(s: System, c: nat)
    requires c < |s.clients|
  {
    var cl := s.clients[c];
    && |cl.res| == |cl.reqs|
    && cl.lastCompleted <= cl.lastSubmitted <= |cl.reqs|
    && cl.lastSubmitted <= cl.lastCompleted + s.win
    && cl.nxtComp == SlotOf(cl.lastCompleted, s.win)
    && (cl.pc.Clearing? ==> cl.lastCompleted < cl.lastSubmitted && Slot(s, c, cl.nxtComp).ready)
    && (cl.pc.Copying? ==> cl.lastCompleted < cl.lastSubmitted && PlaceIs(s, c, cl.lastCompleted, OnBoard))
    && (cl.pc.Finished? ==> cl.lastCompleted == |cl.reqs|)
  }

  /** Each queued or served message is in flight, and in one place only. */
  ghost predicate QueuedOk(s: System, q: nat)
    requires q < |s.queue|
  {
    Carries(s, s.queue[q]) && PlaceIs(s, s.queue[q].client, s.queue[q].index, InQueue(s.taken + q))
  }

  ghost predicate ServedOk(s: System, x: nat)
    requires x < |s.servers|
  {
    !s.servers[x].Waiting? ==>
      Carries(s, s.servers[x].bd) && PlaceIs(s, s.servers[x].bd.client, s.servers[x].bd.index, AtServer(x))
  }

  /** A request in flight is in the place the history says, and its slot is as the protocol has it there. */
  ghost predicate Placed(s: System, c: nat, i: nat)
    requires InFlight(s, c, i)
  {
    && (c, i) in s.place
    && var slot := Slot(s, c, SlotOf(i, s.win));
       match s.place[(c, i)]
       case InQueue(pos) =>
         && s.taken <= pos < s.taken + |s.queue| && s.queue[pos - s.taken] == MessageFor(s, c, i)
         && !slot.ready && (c, i) !in s.logAt
       case AtServer(x) =>
         && x < |s.servers| && !s.servers[x].Waiting? && s.servers[x].bd == MessageFor(s, c, i)
         && !slot.ready
         && (match s.servers[x]
             case Got(_) => (c, i) !in s.logAt
             case Copied(m) => (c, i) !in s.logAt && slot == m
             case Executed(m, output) => slot == m && (m.t.PUT? ==> output == m.v) &&
                                         Answers(s, c, i, slot.(v := output))
             case Answered(m, output) => Answers(s, c, i, slot)
             case Waiting => false)
       case OnBoard =>
         Answers(s, c, i, slot) && (slot.ready <==> !(s.clients[c].pc.Copying? && s.clients[c].lastCompleted == i))
  }

  /** A slot that is ready holds the answer to a request in flight. */
  ghost predicate SlotOk(s: System, c: nat, j: nat) {
    Slot(s, c, j).ready ==>
      var i := Slot(s, c, j).index;
      InFlight(s, c, i) && SlotOf(i, s.win) == j && PlaceIs(s, c, i, OnBoard)
  }

  /** A request completed has the answer the store gave to it. */
  ghost predicate ResultOk(s: System, c: nat, i: nat) {
    c < |s.clients| && i < |s.clients[c].res| && Answers(s, c, i, s.clients[c].res[i])
  }

  /** The log and its index agree, and nothing is run that was not submitted. */
  ghost predicate EntryOk(s: System, p: nat)
    requires p < |s.log|
  {
    var e := s.log[p];
    && e.client < |s.clients| && e.index < s.clients[e.client].lastSubmitted && e.index < |s.clients[e.client].reqs|
    && e.req == s.clients[e.client].reqs[e.index]
    && (e.client, e.index) in s.logAt && s.logAt[(e.client, e.index)] == p
  }

  /** The store after the first requests of the log. */
  function Replay(log: seq<Entry>): map<Uint32, Uint32> {
    if log == [] then map[]
    else
      var e := log[|log| - 1];
      Store(Replay(log[..|log| - 1]), e.req.t, e.req.k, e.req.v)
  }

  /** Every output in the log is the one of the store at its place in the log. */
  ghost predicate Sequential(log: seq<Entry>) {
    forall p :: 0 <= p < |log| ==>
      log[p].output == Output(Replay(log[..p]), log[p].req.t, log[p].req.k, log[p].req.v)
  }

  ghost predicate WindowsInv(s: System) {
    forall c :: 0 <= c < |s.clients| ==> WindowOk(s, c)
  }

  ghost predicate QueueInv(s: System) {
    forall q :: 0 <= q < |s.queue| ==> QueuedOk(s, q)
  }

  ghost predicate ServersInv(s: System) {
    forall x :: 0 <= x < |s.servers| ==> ServedOk(s, x)
  }

  ghost predicate PlacesInv(s: System) {
    forall c: nat, i: nat :: InFlight(s, c, i) ==> Placed(s, c, i)
  }

  ghost predicate BoardInv(s: System) {
    forall c: nat, j: nat :: SlotOk(s, c, j)
  }

  ghost predicate ResultsInv(s: System) {
    forall c, i :: 0 <= c < |s.clients| && 0 <= i < s.clients[c].lastCompleted ==> ResultOk(s, c, i)
  }

  ghost predicate LogInv(s: System) {
    && (forall p :: 0 <= p < |s.log| ==> EntryOk(s, p))
    && (forall k :: k in s.logAt ==>
          s.logAt[k] < |s.log| && s.log[s.logAt[k]].client == k.0 && s.log[s.logAt[k]].index == k.1)
  }

  ghost predicate Inv(s: System) {
    && WindowsInv(s) && QueueInv(s) && ServersInv(s) && PlacesInv(s) && BoardInv(s) && ResultsInv(s) && LogInv(s)
    && s.store == Replay(s.log) && Sequential(s.log)
  }

  lemma InitInv(win: Positive, requests: seq<seq<Request>>, servers: nat)
    ensures Inv(InitSystem(win, requests, servers))
  {
  }

  // ---------------------------------------------------------------------------
  // Client steps, one part of the invariant at a time

  /** The client may change to this program counter without doing anything else. */
  ghost predicate MayGoTo(s: System, c: nat, pc: ClientPc)
    requires c < |s.clients|
  {
    var cl := s.clients[c];
    && !cl.pc.Copying? && !pc.Copying?
    && (pc.Clearing? ==> cl.lastCompleted < cl.lastSubmitted && Slot(s, c, cl.nxtComp).ready)
    && (pc.Finished? ==> cl.lastCompleted == |cl.reqs|)
  }

  lemma PcStep(s: System, c: nat, pc: ClientPc, s': System)
    requires Inv(s) && c < |s.clients| && MayGoTo(s, c, pc) && s' == SetPc(s, c, pc)
    ensures Inv(s')
  {
    PcMessages(s, c, pc, s');
    PcPlaces(s, c, pc, s');
    PcRest(s, c, pc, s');
  }

  lemma PcMessages(s: System, c: nat, pc: ClientPc, s': System)
    requires QueueInv(s) && ServersInv(s) && BoardInv(s) && c < |s.clients| && s' == SetPc(s, c, pc)
    ensures QueueInv(s') && ServersInv(s') && BoardInv(s')
  {
    forall q | 0 <= q < |s'.queue| ensures QueuedOk(s', q) { assert QueuedOk(s, q); }
    forall x | 0 <= x < |s'.servers| ensures ServedOk(s', x) { assert ServedOk(s, x); }
    forall d: nat, j: nat ensures SlotOk(s', d, j) { assert SlotOk(s, d, j); }
  }

  lemma PcPlaces(s: System, c: nat, pc: ClientPc, s': System)
    requires PlacesInv(s) && c < |s.clients| && MayGoTo(s, c, pc) && s' == SetPc(s, c, pc)
    ensures PlacesInv(s')
  {
    forall d: nat, i: nat | InFlight(s', d, i) ensures Placed(s', d, i) { assert InFlight(s, d, i) && Placed(s, d, i); }
  }

  lemma PcRest(s: System, c: nat, pc: ClientPc, s': System)
    requires WindowsInv(s) && ResultsInv(s) && LogInv(s) && c < |s.clients| && MayGoTo(s, c, pc) &&
             s' == SetPc(s, c, pc)
    ensures WindowsInv(s') && ResultsInv(s') && LogInv(s')
  {
    forall d | 0 <= d < |s'.clients| ensures WindowOk(s', d) { assert WindowOk(s, d); }
    forall d, i | 0 <= d < |s'.clients| && 0 <= i < s'.clients[d].lastCompleted
      ensures ResultOk(s', d, i)
    {
      assert ResultOk(s, d, i);
    }
    forall p | 0 <= p < |s'.log| ensures EntryOk(s', p) { assert EntryOk(s, p); }
  }

  /** Nothing is known yet about the next request, and its slot is free. */
  lemma NextIsFresh(s: System, c: nat)
    requires LogInv(s) && BoardInv(s) && c < |s.clients| && WindowOk(s, c)
    requires s.clients[c].lastSubmitted - s.clients[c].lastCompleted < s.win
    ensures (c, s.clients[c].lastSubmitted) !in s.logAt
    ensures !Slot(s, c, SlotOf(s.clients[c].lastSubmitted, s.win)).ready
  {
    var n := s.clients[c].lastSubmitted;
    var slot := Slot(s, c, SlotOf(n, s.win));
    assert SlotOk(s, c, SlotOf(n, s.win));
    if slot.ready {
      SlotDistinct(slot.index, n, s.win);
    }
    assert (c, n) in s.logAt ==> EntryOk(s, s.logAt[(c, n)]);
  }

  ghost predicate MaySubmit(s: System, c: nat)
    requires c < |s.clients|
  {
    var cl := s.clients[c];
    && WindowOk(s, c)
    && cl.pc.Submitting? && cl.lastSubmitted - cl.lastCompleted < s.win && cl.lastSubmitted < |cl.reqs|
    && (c, cl.lastSubmitted) !in s.logAt
    && !Slot(s, c, SlotOf(cl.lastSubmitted, s.win)).ready
  }

  lemma SubmitStep(s: System, c: nat, s': System)
    requires Inv(s) && c < |s.clients| && MaySubmit(s, c) && s' == Submit(s, c)
    ensures Inv(s')
  {
    SubmitMessages(s, c, s');
    SubmitPlaces(s, c, s');
    SubmitRest(s, c, s');
  }

  lemma SubmitMessages(s: System, c: nat, s': System)
    requires QueueInv(s) && ServersInv(s) && BoardInv(s) && c < |s.clients| && MaySubmit(s, c) && s' == Submit(s, c)
    ensures QueueInv(s') && ServersInv(s') && BoardInv(s')
  {
    forall q | 0 <= q < |s'.queue| ensures QueuedOk(s', q) { if q < |s.queue| { assert QueuedOk(s, q); } }
    forall x | 0 <= x < |s'.servers| ensures ServedOk(s', x) { assert ServedOk(s, x); }
    forall d: nat, j: nat ensures SlotOk(s', d, j) { assert SlotOk(s, d, j); }
  }

  lemma SubmitPlaces(s: System, c: nat, s': System)
    requires PlacesInv(s) && c < |s.clients| && MaySubmit(s, c) && s' == Submit(s, c)
    ensures PlacesInv(s')
  {
    forall d: nat, i: nat | InFlight(s', d, i) ensures Placed(s', d, i) {
      if (d, i) != (c, s.clients[c].lastSubmitted) { assert InFlight(s, d, i) && Placed(s, d, i); }
    }
  }

  lemma SubmitRest(s: System, c: nat, s': System)
    requires WindowsInv(s) && ResultsInv(s) && LogInv(s) && c < |s.clients| && MaySubmit(s, c) && s' == Submit(s, c)
    ensures WindowsInv(s') && ResultsInv(s') && LogInv(s')
  {
    forall d | 0 <= d < |s'.clients| ensures WindowOk(s', d) { assert WindowOk(s, d); }
    forall d, i | 0 <= d < |s'.clients| && 0 <= i < s'.clients[d].lastCompleted
      ensures ResultOk(s', d, i)
    {
      assert ResultOk(s, d, i);
    }
    forall p | 0 <= p < |s'.log| ensures EntryOk(s', p) { assert EntryOk(s, p); }
  }

  /** The client is about to take the answer to its oldest request, and only that one is in its slot. */
  ghost predicate MayTakeAnswer(s: System, c: nat)
    requires c < |s.clients|
  {
    var cl := s.clients[c];
    && WindowOk(s, c) && (cl.pc.Clearing? || cl.pc.Copying?)
    && InFlight(s, c, cl.lastCompleted) && Placed(s, c, cl.lastCompleted)
    && PlaceIs(s, c, cl.lastCompleted, OnBoard)
    && (forall i: nat :: InFlight(s, c, i) && i != cl.lastCompleted ==> SlotOf(i, s.win) != cl.nxtComp)
  }

  lemma AnswerIsThere(s: System, c: nat)
    requires Inv(s) && c < |s.clients| && (s.clients[c].pc.Clearing? || s.clients[c].pc.Copying?)
    ensures MayTakeAnswer(s, c)
  {
    var cl := s.clients[c];
    assert WindowOk(s, c) && SlotOk(s, c, cl.nxtComp);
    assert InFlight(s, c, cl.lastCompleted) && Placed(s, c, cl.lastCompleted);
    forall i: nat | InFlight(s, c, i) && i != cl.lastCompleted
      ensures SlotOf(i, s.win) != cl.nxtComp
    {
      SlotDistinct(cl.lastCompleted, i, s.win);
    }
  }

  lemma ClearStep(s: System, c: nat, s': System)
    requires Inv(s) && c < |s.clients| && s.clients[c].pc.Clearing? && MayTakeAnswer(s, c) && s' == Clear(s, c)
    ensures Inv(s')
  {
    ClearMessages(s, c, s');
    ClearPlaces(s, c, s');
    ClearRest(s, c, s');
  }

  lemma ClearMessages(s: System, c: nat, s': System)
    requires QueueInv(s) && ServersInv(s) && BoardInv(s) && c < |s.clients| && s' == Clear(s, c)
    ensures QueueInv(s') && ServersInv(s') && BoardInv(s')
  {
    forall q | 0 <= q < |s'.queue| ensures QueuedOk(s', q) { assert QueuedOk(s, q); }
    forall x | 0 <= x < |s'.servers| ensures ServedOk(s', x) { assert ServedOk(s, x); }
    forall d: nat, j: nat ensures SlotOk(s', d, j) { assert SlotOk(s, d, j); }
  }

  lemma ClearPlaces(s: System, c: nat, s': System)
    requires PlacesInv(s) && c < |s.clients| && s.clients[c].pc.Clearing? && MayTakeAnswer(s, c) && s' == Clear(s, c)
    ensures PlacesInv(s')
  {
    forall d: nat, i: nat | InFlight(s', d, i) ensures Placed(s', d, i) { assert InFlight(s, d, i) && Placed(s, d, i); }
  }

  lemma ClearRest(s: System, c: nat, s': System)
    requires WindowsInv(s) && ResultsInv(s) && LogInv(s) && c < |s.clients| && MayTakeAnswer(s, c) && s' == Clear(s, c)
    ensures WindowsInv(s') && ResultsInv(s') && LogInv(s')
  {
    forall d | 0 <= d < |s'.clients| ensures WindowOk(s', d) { assert WindowOk(s, d); }
    forall d, i | 0 <= d < |s'.clients| && 0 <= i < s'.clients[d].lastCompleted
      ensures ResultOk(s', d, i)
    {
      assert ResultOk(s, d, i);
    }
    forall p | 0 <= p < |s'.log| ensures EntryOk(s', p) { assert EntryOk(s, p); }
  }

  lemma CompleteStep(s: System, c: nat, s': System)
    requires Inv(s) && c < |s.clients| && s.clients[c].pc.Copying? && MayTakeAnswer(s, c)
    requires s.clients[c].lastCompleted < |s.clients[c].res| && s' == Complete(s, c)
    ensures Inv(s')
  {
    CompleteMessages(s, c, s');
    CompletePlaces(s, c, s');
    CompleteWindows(s, c, s');
    CompleteResults(s, c, s');
  }

  lemma CompleteMessages(s: System, c: nat, s': System)
    requires QueueInv(s) && ServersInv(s) && BoardInv(s) && c < |s.clients| && s.clients[c].pc.Copying? &&
             MayTakeAnswer(s, c)
    requires s.clients[c].lastCompleted < |s.clients[c].res| && s' == Complete(s, c)
    ensures QueueInv(s') && ServersInv(s') && BoardInv(s')
  {
    forall q | 0 <= q < |s'.queue| ensures QueuedOk(s', q) { assert QueuedOk(s, q); }
    forall x | 0 <= x < |s'.servers| ensures ServedOk(s', x) { assert ServedOk(s, x); }
    forall d: nat, j: nat ensures SlotOk(s', d, j) { assert SlotOk(s, d, j); }
  }

  lemma CompletePlaces(s: System, c: nat, s': System)
    requires PlacesInv(s) && c < |s.clients| && s.clients[c].pc.Copying? && MayTakeAnswer(s, c)
    requires s.clients[c].lastCompleted < |s.clients[c].res| && s' == Complete(s, c)
    ensures PlacesInv(s')
  {
    forall d: nat, i: nat | InFlight(s', d, i) ensures Placed(s', d, i) { assert InFlight(s, d, i) && Placed(s, d, i); }
  }

  lemma CompleteWindows(s: System, c: nat, s': System)
    requires WindowsInv(s) && c < |s.clients| && MayTakeAnswer(s, c)
    requires s.clients[c].lastCompleted < |s.clients[c].res| && s' == Complete(s, c)
    ensures WindowsInv(s')
  {
    NextSlot(s.clients[c].lastCompleted, s.win);
    forall d | 0 <= d < |s'.clients| ensures WindowOk(s', d) { assert WindowOk(s, d); }
  }

  lemma CompleteResults(s: System, c: nat, s': System)
    requires ResultsInv(s) && LogInv(s) && c < |s.clients| && MayTakeAnswer(s, c)
    requires s.clients[c].lastCompleted < |s.clients[c].res| && s' == Complete(s, c)
    ensures ResultsInv(s') && LogInv(s')
  {
    forall d, i | 0 <= d < |s'.clients| && 0 <= i < s'.clients[d].lastCompleted ensures ResultOk(s', d, i) {
      if (d, i) != (c, s.clients[c].lastCompleted) { assert ResultOk(s, d, i); }
    }
    forall p | 0 <= p < |s'.log| ensures EntryOk(s', p) { assert EntryOk(s, p); }
  }

  // ---------------------------------------------------------------------------
  // Server steps, one part of the invariant at a time

  lemma TakeStep(s: System, x: nat, s': System)
    requires Inv(s) && x < |s.servers| && s.servers[x].Waiting? && s.queue != [] && s' == TakeRequest(s, x)
    ensures Inv(s')
  {
    var m := s.queue[0];
    assert QueuedOk(s, 0);
    assert InFlight(s, m.client, m.index) && Placed(s, m.client, m.index);
    TakeMessages(s, x, s');
    TakePlaces(s, x, s');
    TakeRest(s, x, s');
  }

  lemma TakeMessages(s: System, x: nat, s': System)
    requires QueueInv(s) && ServersInv(s) && BoardInv(s)
    requires x < |s.servers| && s.servers[x].Waiting? && s.queue != [] && s' == TakeRequest(s, x)
    ensures QueueInv(s') && ServersInv(s') && BoardInv(s')
  {
    assert QueuedOk(s, 0);
    forall q | 0 <= q < |s'.queue| ensures QueuedOk(s', q) { assert QueuedOk(s, q + 1); }
    forall y | 0 <= y < |s'.servers| ensures ServedOk(s', y) { assert ServedOk(s, y); }
    forall d: nat, j: nat ensures SlotOk(s', d, j) { assert SlotOk(s, d, j); }
  }

  lemma TakePlaces(s: System, x: nat, s': System)
    requires PlacesInv(s) && x < |s.servers| && s.servers[x].Waiting? && s.queue != [] && QueuedOk(s, 0) &&
             s' == TakeRequest(s, x)
    ensures PlacesInv(s')
  {
    forall d: nat, i: nat | InFlight(s', d, i) ensures Placed(s', d, i) { assert InFlight(s, d, i) && Placed(s, d, i); }
  }

  lemma TakeRest(s: System, x: nat, s': System)
    requires WindowsInv(s) && ResultsInv(s) && LogInv(s)
    requires x < |s.servers| && s.queue != [] && QueuedOk(s, 0) && s' == TakeRequest(s, x)
    ensures WindowsInv(s') && ResultsInv(s') && LogInv(s')
  {
    forall d | 0 <= d < |s'.clients| ensures WindowOk(s', d) { assert WindowOk(s, d); }
    forall d, i | 0 <= d < |s'.clients| && 0 <= i < s'.clients[d].lastCompleted
      ensures ResultOk(s', d, i)
    {
      assert ResultOk(s, d, i);
    }
    forall p | 0 <= p < |s'.log| ensures EntryOk(s', p) { assert EntryOk(s, p); }
  }

  /** Server `x` holds a request, and no other request in flight has its slot. */
  ghost predicate OwnsSlot(s: System, x: nat)
    requires x < |s.servers|
  {
    !s.servers[x].Waiting? &&
    var m := s.servers[x].bd;
    && ServedOk(s, x)
    && InFlight(s, m.client, m.index) && Placed(s, m.client, m.index) && WindowOk(s, m.client)
    && (forall i: nat :: InFlight(s, m.client, i) && i != m.index ==> SlotOf(i, s.win) != m.slot)
  }

  lemma SlotIsOwned(s: System, x: nat)
    requires Inv(s) && x < |s.servers| && !s.servers[x].Waiting?
    ensures OwnsSlot(s, x)
  {
    var m := s.servers[x].bd;
    assert ServedOk(s, x);
    assert InFlight(s, m.client, m.index) && Placed(s, m.client, m.index);
    assert WindowOk(s, m.client);
    forall i: nat | InFlight(s, m.client, i) && i != m.index
      ensures SlotOf(i, s.win) != m.slot
    {
      if i < m.index {
        SlotDistinct(i, m.index, s.win);
      } else {
        SlotDistinct(m.index, i, s.win);
      }
    }
  }

  /** The steps in which a server writes to the board. */
  ghost predicate Writes(s: System, x: nat, s': System)
    requires x < |s.servers|
  {
    (s.servers[x].Got? || s.servers[x].Executed? || s.servers[x].Answered?) && ServerMove(s, x) == Some(s')
  }

  lemma WriteStep(s: System, x: nat, s': System)
    requires Inv(s) && x < |s.servers| && OwnsSlot(s, x) && Writes(s, x, s')
    ensures Inv(s')
  {
    WriteMessages(s, x, s');
    match s.servers[x] {
      case Got(_) => CopyPlaces(s, x, s');
      case Executed(_, _) => AnswerPlaces(s, x, s');
      case Answered(_, _) => ReadyPlaces(s, x, s');
    }
    WriteRest(s, x, s');
  }

  lemma WriteMessages(s: System, x: nat, s': System)
    requires QueueInv(s) && ServersInv(s) && BoardInv(s) && x < |s.servers| && OwnsSlot(s, x) && Writes(s, x, s')
    ensures QueueInv(s') && ServersInv(s') && BoardInv(s')
  {
    hide OwnsSlot, Writes;
    WriteQueue(s, x, s');
    WriteServers(s, x, s');
    WriteBoard(s, x, s');
  }

  lemma WriteQueue(s: System, x: nat, s': System)
    requires QueueInv(s) && x < |s.servers| && OwnsSlot(s, x) && Writes(s, x, s')
    ensures QueueInv(s')
  {
    forall q | 0 <= q < |s'.queue| ensures QueuedOk(s', q) { assert QueuedOk(s, q); }
  }

  lemma WriteServers(s: System, x: nat, s': System)
    requires ServersInv(s) && x < |s.servers| && OwnsSlot(s, x) && Writes(s, x, s')
    ensures ServersInv(s')
  {
    forall y | 0 <= y < |s'.servers| ensures ServedOk(s', y) { assert ServedOk(s, y); }
  }

  lemma WriteBoard(s: System, x: nat, s': System)
    requires BoardInv(s) && x < |s.servers| && OwnsSlot(s, x) && Writes(s, x, s')
    ensures BoardInv(s')
  {
    forall d: nat, j: nat ensures SlotOk(s', d, j) { assert SlotOk(s, d, j); }
  }

  lemma CopyPlaces(s: System, x: nat, s': System)
    requires PlacesInv(s) && x < |s.servers| && OwnsSlot(s, x) && s.servers[x].Got? && Writes(s, x, s')
    ensures PlacesInv(s')
  {
    forall d: nat, i: nat | InFlight(s', d, i) ensures Placed(s', d, i) { assert InFlight(s, d, i) && Placed(s, d, i); }
  }

  lemma AnswerPlaces(s: System, x: nat, s': System)
    requires PlacesInv(s) && x < |s.servers| && OwnsSlot(s, x) && s.servers[x].Executed? && Writes(s, x, s')
    ensures PlacesInv(s')
  {
    forall d: nat, i: nat | InFlight(s', d, i) ensures Placed(s', d, i) { assert InFlight(s, d, i) && Placed(s, d, i); }
  }

  lemma ReadyPlaces(s: System, x: nat, s': System)
    requires PlacesInv(s) && x < |s.servers| && OwnsSlot(s, x) && s.servers[x].Answered? && Writes(s, x, s')
    ensures PlacesInv(s')
  {
    forall d: nat, i: nat | InFlight(s', d, i) ensures Placed(s', d, i) { assert InFlight(s, d, i) && Placed(s, d, i); }
  }

  lemma WriteRest(s: System, x: nat, s': System)
    requires WindowsInv(s) && ResultsInv(s) && LogInv(s) && x < |s.servers| && OwnsSlot(s, x) && Writes(s, x, s')
    ensures WindowsInv(s') && ResultsInv(s') && LogInv(s')
  {
    forall d | 0 <= d < |s'.clients| ensures WindowOk(s', d) { assert WindowOk(s, d); }
    forall d, i | 0 <= d < |s'.clients| && 0 <= i < s'.clients[d].lastCompleted
      ensures ResultOk(s', d, i)
    {
      assert ResultOk(s, d, i);
    }
    forall p | 0 <= p < |s'.log| ensures EntryOk(s', p) { assert EntryOk(s, p); }
  }

  lemma ExecuteStep(s: System, x: nat, s': System)
    requires Inv(s) && x < |s.servers| && s.servers[x].Copied? && OwnsSlot(s, x) &&
             s' == ExecuteRequest(s, x, s.servers[x].bd)
    ensures Inv(s')
  {
    ExecuteMessages(s, x, s');
    ExecutePlaces(s, x, s');
    ExecuteRest(s, x, s');
    ExecuteReplay(s, x, s');
  }

  lemma ExecuteMessages(s: System, x: nat, s': System)
    requires QueueInv(s) && ServersInv(s) && BoardInv(s) && x < |s.servers| && s.servers[x].Copied? && OwnsSlot(s, x)
    requires s' == ExecuteRequest(s, x, s.servers[x].bd)
    ensures QueueInv(s') && ServersInv(s') && BoardInv(s')
  {
    forall q | 0 <= q < |s'.queue| ensures QueuedOk(s', q) { assert QueuedOk(s, q); }
    forall y | 0 <= y < |s'.servers| ensures ServedOk(s', y) { assert ServedOk(s, y); }
    forall d: nat, j: nat ensures SlotOk(s', d, j) { assert SlotOk(s, d, j); }
  }

  lemma ExecutePlaces(s: System, x: nat, s': System)
    requires PlacesInv(s) && x < |s.servers| && s.servers[x].Copied? && OwnsSlot(s, x)
    requires s' == ExecuteRequest(s, x, s.servers[x].bd)
    ensures PlacesInv(s')
  {
    forall d: nat, i: nat | InFlight(s', d, i) ensures Placed(s', d, i) { assert InFlight(s, d, i) && Placed(s, d, i); }
  }

  lemma ExecuteRest(s: System, x: nat, s': System)
    requires WindowsInv(s) && ResultsInv(s) && LogInv(s) && x < |s.servers| && s.servers[x].Copied? && OwnsSlot(s, x)
    requires s' == ExecuteRequest(s, x, s.servers[x].bd)
    ensures WindowsInv(s') && ResultsInv(s') && LogInv(s')
  {
    forall d | 0 <= d < |s'.clients| ensures WindowOk(s', d) { assert WindowOk(s, d); }
    forall d, i | 0 <= d < |s'.clients| && 0 <= i < s'.clients[d].lastCompleted
      ensures ResultOk(s', d, i)
    {
      assert ResultOk(s, d, i);
    }
    forall p | 0 <= p < |s'.log| ensures EntryOk(s', p) { if p < |s.log| { assert EntryOk(s, p); } }
  }

  lemma ExecuteReplay(s: System, x: nat, s': System)
    requires s.store == Replay(s.log) && Sequential(s.log)
    requires x < |s.servers| && s.servers[x].Copied? && s' == ExecuteRequest(s, x, s.servers[x].bd)
    ensures s'.store == Replay(s'.log) && Sequential(s'.log)
  {
    assert s'.log[..|s.log|] == s.log;
    forall p | 0 <= p < |s'.log|
      ensures s'.log[p].output == Output(Replay(s'.log[..p]), s'.log[p].req.t, s'.log[p].req.k, s'.log[p].req.v)
    {
      assert s'.log[..p] == s.log[..p];
    }
  }

  // ---------------------------------------------------------------------------
  // Runs

  lemma ClientInv(s: System, c: nat, s': System)
    requires Inv(s) && c < |s.clients| && ClientMove(s, c) == Some(s')
    ensures Inv(s')
  {
    var cl := s.clients[c];
    assert WindowOk(s, c) && SlotOk(s, c, cl.nxtComp);
    match cl.pc {
      case Submitting =>
        if cl.lastSubmitted - cl.lastCompleted < s.win && cl.lastSubmitted < |cl.reqs| {
          NextIsFresh(s, c);
          SubmitStep(s, c, s');
        } else {
          PcStep(s, c, Checking, s');
        }
      case Checking =>
        if Slot(s, c, cl.nxtComp).ready {
          PcStep(s, c, Clearing, s');
        } else if cl.lastSubmitted < |cl.reqs| {
          PcStep(s, c, Submitting, s');
        } else if cl.lastCompleted >= |cl.reqs| {
          PcStep(s, c, Finished, s');
        }
      case Clearing =>
        AnswerIsThere(s, c);
        ClearStep(s, c, s');
      case Copying =>
        AnswerIsThere(s, c);
        CompleteStep(s, c, s');
    }
  }

  lemma ServerInv(s: System, x: nat, s': System)
    requires Inv(s) && x < |s.servers| && ServerMove(s, x) == Some(s')
    ensures Inv(s')
  {
    if s.servers[x].Waiting? {
      TakeStep(s, x, s');
    } else {
      SlotIsOwned(s, x);
      if s.servers[x].Copied? {
        ExecuteStep(s, x, s');
      } else {
        WriteStep(s, x, s');
      }
    }
  }

  /** The state after a schedule; a choice that cannot move is skipped. */
  ghost function Execute(win: Positive, requests: seq<seq<Request>>, servers: nat, schedule: seq<Choice>): System {
    if schedule == [] then InitSystem(win, requests, servers)
    else
      var s := Execute(win, requests, servers, schedule[..|schedule| - 1]);
      match Step(s, schedule[|schedule| - 1])
      case None => s
      case Some(s') => s'
  }

  lemma {:induction false} Reachable(win: Positive, requests: seq<seq<Request>>, servers: nat, schedule: seq<Choice>)
    ensures Inv(Execute(win, requests, servers, schedule))
  {
    if schedule == [] {
      InitInv(win, requests, servers);
    } else {
      Reachable(win, requests, servers, schedule[..|schedule| - 1]);
      var s := Execute(win, requests, servers, schedule[..|schedule| - 1]);
      match schedule[|schedule| - 1] {
        case ClientStep(c) => if c < |s.clients| && ClientMove(s, c).Some? { ClientInv(s, c, ClientMove(s, c).value); }
        case ServerStep(x) => if x < |s.servers| && ServerMove(s, x).Some? { ServerInv(s, x, ServerMove(s, x).value); }
      }
    }
  }

  /** The requests of a system never change. */
  ghost predicate SameRequests(s: System, win: Positive, requests: seq<seq<Request>>) {
    s.win == win && |s.clients| == |requests| && forall c :: 0 <= c < |requests| ==> s.clients[c].reqs == requests[c]
  }

  lemma StepKeepsRequests(s: System, ch: Choice)
    requires Step(s, ch).Some?
    ensures var s' := Step(s, ch).value;
            s'.win == s.win && |s'.clients| == |s.clients| &&
            forall c :: 0 <= c < |s.clients| ==> s'.clients[c].reqs == s.clients[c].reqs
  {
    hide ClientMove, ServerMove;
    match ch {
      case ClientStep(c) => ClientKeepsRequests(s, c);
      case ServerStep(x) => ServerKeepsClients(s, x);
    }
  }

  lemma ClientKeepsRequests(s: System, c: nat)
    requires c < |s.clients| && ClientMove(s, c).Some?
    ensures var s' := ClientMove(s, c).value;
            s'.win == s.win && |s'.clients| == |s.clients| &&
            forall d :: 0 <= d < |s.clients| ==> s'.clients[d].reqs == s.clients[d].reqs
  {
  }

  lemma ServerKeepsClients(s: System, x: nat)
    requires x < |s.servers| && ServerMove(s, x).Some?
    ensures ServerMove(s, x).value.win == s.win && ServerMove(s, x).value.clients == s.clients
  {
  }

  /** The log grows only when a server runs its request. */
  lemma StepLog(s: System, ch: Choice)
    requires Step(s, ch).Some?
    ensures if ch.ServerStep? && s.servers[ch.x].Copied? then
              |Step(s, ch).value.log| == |s.log| + 1 && Step(s, ch).value.log[..|s.log|] == s.log &&
              Step(s, ch).value.log[|s.log|].index == s.servers[ch.x].bd.index
            else Step(s, ch).value.log == s.log
  {
  }

  lemma {:induction false} RequestsStay(win: Positive, requests: seq<seq<Request>>, servers: nat, schedule: seq<Choice>)
    ensures SameRequests(Execute(win, requests, servers, schedule), win, requests)
  {
    if schedule != [] {
      RequestsStay(win, requests, servers, schedule[..|schedule| - 1]);
      var s := Execute(win, requests, servers, schedule[..|schedule| - 1]);
      if Step(s, schedule[|schedule| - 1]).Some? {
        StepKeepsRequests(s, schedule[|schedule| - 1]);
      }
    }
  }

  // ---------------------------------------------------------------------------
  // What holds of every run

  /**
   The window is kept, and no two requests in flight share a result slot: neither those whose
   messages are queued or being served, nor those whose answers are on the board.
   */
  lemma AtMostOnePerSlot(win: Positive, requests: seq<seq<Request>>, servers: nat, schedule: seq<Choice>, c: nat)
    requires c < |requests|
    ensures var s := Execute(win, requests, servers, schedule);
            && |s.clients| == |requests|
            && s.clients[c].lastCompleted <= s.clients[c].lastSubmitted <= s.clients[c].lastCompleted + win
            && OwnSlots(s, c) && QueueCarried(s) && ServersCarried(s) && BoardOwned(s, c)
  {
    Reachable(win, requests, servers, schedule);
    RequestsStay(win, requests, servers, schedule);
    var s := Execute(win, requests, servers, schedule);
    hide Execute, WindowOk, OwnSlots, QueueCarried, ServersCarried, BoardOwned, QueueInv, ServersInv, BoardInv;
    WindowApart(s, c);
    MessagesCarried(s);
    AnswersOwned(s, c);
  }

  ghost predicate OwnSlots(s: System, c: nat) {
    forall i: nat, j: nat :: InFlight(s, c, i) && InFlight(s, c, j) && i != j ==> SlotOf(i, s.win) != SlotOf(j, s.win)
  }

  /** Each queued message carries a request in flight, and no two the same one. */
  ghost predicate QueueCarried(s: System) {
    && (forall q :: 0 <= q < |s.queue| ==> Carries(s, s.queue[q]))
    && (forall q, r :: 0 <= q < r < |s.queue| ==> Id(s.queue[q]) != Id(s.queue[r]))
  }

  /** So does each message at a server, and none of them is queued as well. */
  ghost predicate ServersCarried(s: System) {
    && (forall x :: 0 <= x < |s.servers| && !s.servers[x].Waiting? ==> Carries(s, s.servers[x].bd))
    && (forall x, y :: 0 <= x < y < |s.servers| && !s.servers[x].Waiting? && !s.servers[y].Waiting? ==>
          Id(s.servers[x].bd) != Id(s.servers[y].bd))
    && (forall q, x :: 0 <= q < |s.queue| && 0 <= x < |s.servers| && !s.servers[x].Waiting? ==>
          Id(s.queue[q]) != Id(s.servers[x].bd))
  }

  /** A slot that is ready holds the answer to a request in flight, whose slot it is. */
  ghost predicate BoardOwned(s: System, c: nat) {
    forall j: nat :: Slot(s, c, j).ready ==>
      InFlight(s, c, Slot(s, c, j).index) && SlotOf(Slot(s, c, j).index, s.win) == j
  }

  /** The request that a message carries. */
  function Id(m: Message): (nat, nat) { (m.client, m.index) }

  lemma WindowApart(s: System, c: nat)
    requires c < |s.clients| && WindowsInv(s)
    ensures s.clients[c].lastCompleted <= s.clients[c].lastSubmitted <= s.clients[c].lastCompleted + s.win
    ensures OwnSlots(s, c)
  {
    assert WindowOk(s, c);
    forall i: nat, j: nat | InFlight(s, c, i) && InFlight(s, c, j) && i != j
      ensures SlotOf(i, s.win) != SlotOf(j, s.win)
    {
      if i < j { SlotDistinct(i, j, s.win); } else { SlotDistinct(j, i, s.win); }
    }
  }

  lemma MessagesCarried(s: System)
    requires QueueInv(s) && ServersInv(s)
    ensures QueueCarried(s) && ServersCarried(s)
  {
    hide Carries;
    forall q | 0 <= q < |s.queue|
      ensures Carries(s, s.queue[q]) && PlaceIs(s, s.queue[q].client, s.queue[q].index, InQueue(s.taken + q))
    {
      assert QueuedOk(s, q);
    }
    forall x | 0 <= x < |s.servers| && !s.servers[x].Waiting?
      ensures Carries(s, s.servers[x].bd) && PlaceIs(s, s.servers[x].bd.client, s.servers[x].bd.index, AtServer(x))
    {
      assert ServedOk(s, x);
    }
  }

  lemma AnswersOwned(s: System, c: nat)
    requires BoardInv(s)
    ensures BoardOwned(s, c)
  {
    forall j: nat | Slot(s, c, j).ready
      ensures InFlight(s, c, Slot(s, c, j).index) && SlotOf(Slot(s, c, j).index, s.win) == j
    {
      assert SlotOk(s, c, j);
    }
  }

  /**
   Every completed request has the answer that the store gave to exactly that request, and the
   store ran the requests one after the other.
   */
  lemma AnswersDelivered(win: Positive, requests: seq<seq<Request>>, servers: nat, schedule: seq<Choice>, c: nat,
                         i: nat)
    returns (p: nat)
    requires c < |requests|
    ensures var s := Execute(win, requests, servers, schedule);
            && Sequential(s.log)
            && |s.clients| == |requests|
            && (i < s.clients[c].lastCompleted ==>
                  && i < |requests[c]| && i < |s.clients[c].res| && p < |s.log|
                  && s.log[p] == Entry(c, i, requests[c][i], s.clients[c].res[i].v)
                  && s.clients[c].res[i].k == requests[c][i].k && s.clients[c].res[i].t == requests[c][i].t)
  {
    Reachable(win, requests, servers, schedule);
    RequestsStay(win, requests, servers, schedule);
    var s := Execute(win, requests, servers, schedule);
    p := 0;
    if i < s.clients[c].lastCompleted {
      assert ResultOk(s, c, i);
      p := s.logAt[(c, i)];
      assert EntryOk(s, p);
    }
  }

  // ---------------------------------------------------------------------------
  // Real-time order

  lemma {:induction false} LogGrows(win: Positive, requests: seq<seq<Request>>, servers: nat, earlier: seq<Choice>,
                                    more: seq<Choice>)
    ensures Execute(win, requests, servers, earlier).log <= Execute(win, requests, servers, earlier + more).log
  {
    hide Execute;
    if more == [] {
      assert earlier + more == earlier;
    } else {
      var init := more[..|more| - 1];
      LogGrows(win, requests, servers, earlier, init);
      assert earlier + more == (earlier + init) + [more[|more| - 1]];
      LastExtends(win, requests, servers, earlier + init, more[|more| - 1]);
    }
  }

  lemma LastExtends(win: Positive, requests: seq<seq<Request>>, servers: nat, schedule: seq<Choice>, ch: Choice)
    ensures Execute(win, requests, servers, schedule).log <= Execute(win, requests, servers, schedule + [ch]).log
  {
    hide Step, InitSystem;
    assert (schedule + [ch])[..|schedule + [ch]| - 1] == schedule;
    StepExtends(Execute(win, requests, servers, schedule), ch);
  }

  lemma StepExtends(s: System, ch: Choice)
    ensures Step(s, ch).Some? ==> s.log <= Step(s, ch).value.log
  {
    hide Step;
    if Step(s, ch).Some? {
      StepLog(s, ch);
    }
  }

  ghost predicate IsEntry(s: System, p: nat, c: nat, i: nat) {
    p < |s.log| && s.log[p].client == c && s.log[p].index == i
  }

  ghost predicate Submitted(s: System, c: nat, i: nat) {
    c < |s.clients| && i < s.clients[c].lastSubmitted
  }

  ghost predicate Completed(s: System, c: nat, i: nat) {
    c < |s.clients| && i < s.clients[c].lastCompleted
  }

  /** The store runs no request twice, and none before it is submitted. */
  lemma RunOnce(win: Positive, requests: seq<seq<Request>>, servers: nat, schedule: seq<Choice>, c: nat, i: nat, p: nat,
                q: nat)
    requires var s := Execute(win, requests, servers, schedule); IsEntry(s, p, c, i) && IsEntry(s, q, c, i)
    ensures p == q && Submitted(Execute(win, requests, servers, schedule), c, i)
  {
    Reachable(win, requests, servers, schedule);
    var s := Execute(win, requests, servers, schedule);
    hide Execute;
    assert EntryOk(s, p) && EntryOk(s, q);
  }

  /** A completed request has been run. */
  lemma CompletedWasRun(s: System, c: nat, i: nat) returns (p: nat)
    requires Inv(s) && Completed(s, c, i)
    ensures IsEntry(s, p, c, i)
  {
    assert ResultOk(s, c, i);
    p := s.logAt[(c, i)];
    assert EntryOk(s, p);
  }

  /**
   The log is a linearization: a request that was completed before another one was submitted was run
   before it. So every request runs once, between its submission and its completion.
   */
  lemma RealTimeOrder(win: Positive, requests: seq<seq<Request>>, servers: nat, earlier: seq<Choice>, more: seq<Choice>,
                      c: nat, i: nat, d: nat, j: nat, p: nat, q: nat)
    requires var s := Execute(win, requests, servers, earlier); Completed(s, c, i) && !Submitted(s, d, j)
    requires var s' := Execute(win, requests, servers, earlier + more); IsEntry(s', p, c, i) && IsEntry(s', q, d, j)
    ensures p < q
  {
    Reachable(win, requests, servers, earlier);
    LogGrows(win, requests, servers, earlier, more);
    var s, s' := Execute(win, requests, servers, earlier), Execute(win, requests, servers, earlier + more);
    var r := CompletedWasRun(s, c, i);
    RunOnce(win, requests, servers, earlier + more, c, i, p, r);
    if q < |s.log| {
      assert s'.log[q] == s.log[q];
      RunOnce(win, requests, servers, earlier, d, j, q, q);
    }
  }

  // ---------------------------------------------------------------------------
  // One client, one request in flight

  /** The store after the first `n` requests. */
  function StoreAfter(reqs: seq<Request>, n: nat): map<Uint32, Uint32>
    requires n <= |reqs|
  {
    if n == 0 then map[]
    else Store(StoreAfter(reqs, n - 1), reqs[n - 1].t, reqs[n - 1].k, reqs[n - 1].v)
  }

  ghost predicate InOrder(log: seq<Entry>) {
    forall p :: 0 <= p < |log| ==> log[p].index == p
  }

  lemma NextInOrder(s: System, x: nat)
    requires Inv(s) && |s.clients| == 1 && s.win == 1 && InOrder(s.log)
    requires x < |s.servers| && s.servers[x].Copied?
    ensures s.servers[x].bd.index == |s.log|
  {
    OnlyInFlight(s, x);
    AllBefore(s, s.servers[x].bd.index);
  }

  /** With one request in flight a server that has copied a message has that one, and it was not run yet. */
  lemma OnlyInFlight(s: System, x: nat)
    requires WindowsInv(s) && ServersInv(s) && PlacesInv(s) && |s.clients| == 1 && s.win == 1
    requires x < |s.servers| && s.servers[x].Copied?
    ensures s.servers[x].bd.index == s.clients[0].lastCompleted && (0, s.servers[x].bd.index) !in s.logAt
  {
    hide Answers, MessageFor;
    var m := s.servers[x].bd;
    assert WindowOk(s, 0) && ServedOk(s, x);
    assert InFlight(s, m.client, m.index) && Placed(s, m.client, m.index);
  }

  /** A completed request was run; in a log that is in order so were all before it. */
  lemma AllBefore(s: System, n: nat)
    requires ResultsInv(s) && LogInv(s) && |s.clients| == 1 && InOrder(s.log)
    requires n == s.clients[0].lastCompleted && (0, n) !in s.logAt
    ensures |s.log| == n
  {
    hide MessageFor;
    if n > 0 {
      assert ResultOk(s, 0, n - 1) && (0, n - 1) in s.logAt;
    }
    assert |s.log| > n ==> EntryOk(s, n) && s.log[n].index == n;
  }

  lemma {:induction false} RunsInOrder(requests: seq<Request>, servers: nat, schedule: seq<Choice>)
    ensures InOrder(Execute(1, [requests], servers, schedule).log)
  {
    if schedule != [] {
      var earlier := schedule[..|schedule| - 1];
      RunsInOrder(requests, servers, earlier);
      Reachable(1, [requests], servers, earlier);
      RequestsStay(1, [requests], servers, earlier);
      var s := Execute(1, [requests], servers, earlier);
      var ch := schedule[|schedule| - 1];
      if Step(s, ch).Some? {
        StepLog(s, ch);
        if ch.ServerStep? && s.servers[ch.x].Copied? {
          NextInOrder(s, ch.x);
        }
      }
    }
  }

  lemma {:induction false} ReplayIsStoreAfter(s: System, n: nat)
    requires LogInv(s) && |s.clients| == 1 && InOrder(s.log) && n <= |s.log| && n <= |s.clients[0].reqs|
    ensures Replay(s.log[..n]) == StoreAfter(s.clients[0].reqs, n)
  {
    if n > 0 {
      ReplayIsStoreAfter(s, n - 1);
      assert s.log[..n][..n - 1] == s.log[..n - 1];
      assert EntryOk(s, n - 1);
    }
  }

  /** With one client and one request in flight the answers are those of a sequential replay. */
  lemma SynchronousReplay(requests: seq<Request>, servers: nat, schedule: seq<Choice>, i: nat)
    ensures var cl := Execute(1, [requests], servers, schedule).clients;
            |cl| == 1 &&
            (i < cl[0].lastCompleted ==>
               i < |requests| && i < |cl[0].res| &&
               cl[0].res[i].v == Output(StoreAfter(requests, i), requests[i].t, requests[i].k, requests[i].v))
  {
    Reachable(1, [requests], servers, schedule);
    RequestsStay(1, [requests], servers, schedule);
    RunsInOrder(requests, servers, schedule);
    var s := Execute(1, [requests], servers, schedule);
    if i < s.clients[0].lastCompleted {
      var p := AnswersDelivered(1, [requests], servers, schedule, 0, i);
      assert p == i;
      ReplayIsStoreAfter(s, i);
    }
  }
}
