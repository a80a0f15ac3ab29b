/**
 The whole key-value service: client threads and server threads that talk through the ring and the
 board in shared memory, and the hash table of the servers. Every semaphore operation and every
 access to the ring's ends, its slots, or the hash table is a step of its own.

 The ring has a thread for each client and then one for each server; the table has one for each
 server. There are no history variables here other than those of the ring.
 */
module KvSystem {
  import opened Wrappers
  import opened Linearizability
  import R = Ring
  import KV = KvStore
  import W = Window

  type Descriptor = R.Descriptor

  datatype Client = Client(
    reqs: seq<W.Request>,
    res: seq<Descriptor>,
    lastSubmitted: nat,
    lastCompleted: nat,
    nxtComp: nat,
    pc: W.ClientPc)

  datatype Server =
    | Waiting
    | Got(bd: Descriptor)
    | Copied(bd: Descriptor)
    | Executed(bd: Descriptor, output: Uint32)
    | Answered(bd: Descriptor)

  /** `base` is the size of the ring in the shared file; `board` has the bytes written after it, by offset. */
  datatype System = System(
    win: W.Positive,
    base: nat,
    clients: seq<Client>,
    servers: seq<Server>,
    board: map<nat, Descriptor>,
    ring: R.State,
    table: KV.Table)

  datatype Choice = ClientStep(c: nat) | ServerStep(x: nat)

  function NewClient(reqs: seq<W.Request>): Client {
    Client(reqs, seq(|reqs|, _ => R.ZERO), 0, 0, 0, if reqs == [] then W.Finished else W.Submitting)
  }

  function Start(win: W.Positive, base: nat, requests: seq<seq<W.Request>>, servers: nat, size: nat): System {
    System(win, base, seq(|requests|, c requires 0 <= c < |requests| => NewClient(requests[c])),
           seq(servers, _ => Waiting), map[], R.InitRing(|requests| + servers), KV.InitKvStore(size, servers))
  }

  /** What the file holds at an offset; memory that was never written is zero. */
  function Cell(s: System, off: nat): Descriptor {
    if off in s.board then s.board[off] else R.ZERO
  }

  /** Where slot `j` of client `c` is. */
  function Offset(s: System, c: nat, j: nat): nat { W.Bytes(s.base, s.win, c, j) }

  ghost predicate Shape(s: System) {
    && R.Shape(s.ring) && KV.Shape(s.table)
    && |s.ring.threads| == |s.clients| + |s.servers| && |s.table.threads| == |s.servers|
  }

  // ---------------------------------------------------------------------------
  // Client steps

  function SetClient(s: System, c: nat, cl: Client): System
    requires c < |s.clients|
  {
    s.(clients := s.clients[c := cl])
  }

  predicate MaySubmit(s: System, c: nat)
    requires c < |s.clients|
  {
    var cl := s.clients[c];
    cl.lastSubmitted - cl.lastCompleted < s.win && cl.lastSubmitted < |cl.reqs|
  }

  /** The descriptor that carries the next request. */
  function NextDescriptor(s: System, c: nat): Descriptor
    requires c < |s.clients| && s.clients[c].lastSubmitted < |s.clients[c].reqs|
  {
    var i := s.clients[c].lastSubmitted;
    var r := s.clients[c].reqs[i];
    R.Descriptor(r.t, r.k, r.v, Offset(s, c, W.SlotOf(i, s.win)), false)
  }

  function ClientMove(s: System, c: nat): Option<System>
    requires Shape(s) && c < |s.clients|
  {
    var cl := s.clients[c];
    if s.ring.threads[c] != R.Outside then Submits(s, c)
    else
      match cl.pc
      case Submitting =>
        if MaySubmit(s, c) then
          (match R.Step(s.ring, R.Start(c, R.Submit(NextDescriptor(s, c))))
           case None => None
           case Some((ring, _)) => Some(s.(ring := ring)))
        else Some(SetClient(s, c, cl.(pc := W.Checking)))
      case Checking =>
        if Cell(s, Offset(s, c, cl.nxtComp)).ready then Some(SetClient(s, c, cl.(pc := W.Clearing)))
        else if cl.lastSubmitted < |cl.reqs| then Some(SetClient(s, c, cl.(pc := W.Submitting)))
        else if cl.lastCompleted < |cl.reqs| then Some(s)
        else Some(SetClient(s, c, cl.(pc := W.Finished)))
      case Clearing =>
        var off := Offset(s, c, cl.nxtComp);
        Some(SetClient(s, c, cl.(pc := W.Copying)).(board := s.board[off := Cell(s, off).(ready := false)]))
      case Copying =>
        if cl.lastCompleted < |cl.res| then
          Some(SetClient(s, c, cl.(
                 res := cl.res[cl.lastCompleted := Cell(s, Offset(s, c, cl.nxtComp))],
                 lastCompleted := cl.lastCompleted + 1,
                 nxtComp := W.SlotOf(cl.nxtComp + 1, s.win),
                 pc := W.Checking)))
        else None
      case Finished => None
  }

  /** A step inside ring_submit; when it returns, the request counts as submitted. */
  function Submits(s: System, c: nat): Option<System>
    requires Shape(s) && c < |s.clients|
  {
    match R.Step(s.ring, R.Advance(c))
    case None => None
    case Some((ring, es)) =>
      var s1 := s.(ring := ring);
      Some(if es == [] then s1
           else SetClient(s1, c, s.clients[c].(lastSubmitted := s.clients[c].lastSubmitted + 1)))
  }

  // ---------------------------------------------------------------------------
  // Server steps

  function SetServer(s: System, x: nat, sv: Server): System
    requires x < |s.servers|
  {
    s.(servers := s.servers[x := sv])
  }

  /** `put` or `get`, as the descriptor says. */
  function OpOf(bd: Descriptor): KV.Op {
    if bd.reqType == R.PUT then KV.Put(bd.k, bd.v) else KV.Get(bd.k)
  }

  /** What the answer will have as value: that of the request if it is a `put`. */
  function OutputOf(bd: Descriptor, res: KV.Result): Uint32 {
    match res
    case Done => bd.v
    case Value(v) => v
  }

  function ServerMove(s: System, x: nat): Option<System>
    requires Shape(s) && x < |s.servers|
  {
    var t := |s.clients| + x;
    if s.ring.threads[t] != R.Outside then Takes(s, x)
    else if s.table.threads[x] != KV.Outside then Runs(s, x)
    else
      match s.servers[x]
      case Waiting =>
        (match R.Step(s.ring, R.Start(t, R.Take))
         case None => None
         case Some((ring, _)) => Some(s.(ring := ring)))
      case Got(bd) => Some(SetServer(s, x, Copied(bd)).(board := s.board[bd.resOff := bd]))
      case Copied(bd) =>
        (match KV.Step(s.table, KV.Start(x, OpOf(bd)))
         case None => None
         case Some((table, _)) => Some(s.(table := table)))
      case Executed(bd, output) =>
        var cell := Cell(s, bd.resOff);
        Some(SetServer(s, x, Answered(bd)).(
               board := s.board[bd.resOff := if bd.reqType == R.GET then cell.(v := output) else cell]))
      case Answered(bd) =>
        Some(SetServer(s, x, Waiting).(board := s.board[bd.resOff := Cell(s, bd.resOff).(ready := true)]))
  }

  /** A step inside ring_get; when it returns, the server has the descriptor. */
  function Takes(s: System, x: nat): Option<System>
    requires Shape(s) && x < |s.servers|
  {
    match R.Step(s.ring, R.Advance(|s.clients| + x))
    case None => None
    case Some((ring, es)) =>
      var s1 := s.(ring := ring);
      Some(if es != [] && es[0].Return? && es[0].res.Took? then SetServer(s1, x, Got(es[0].res.bd)) else s1)
  }

  /** A step inside put or get; when it returns, the server has the output. */
  function Runs(s: System, x: nat): Option<System>
    requires Shape(s) && x < |s.servers|
  {
    match KV.Step(s.table, KV.Advance(x))
    case None => None
    case Some((table, es)) =>
      var s1 := s.(table := table);
      Some(if es != [] && es[0].Return? && s.servers[x].Copied? then
             SetServer(s1, x, Executed(s.servers[x].bd, OutputOf(s.servers[x].bd, es[0].res)))
           else s1)
  }

  /** None: the thread has to wait, or there is no such thread. */
  function Step(s: System, ch: Choice): (r: Option<System>)
    requires Shape(s)
    ensures r.Some? ==> Shape(r.value)
    ensures r.Some? ==> |r.value.clients| == |s.clients| && |r.value.servers| == |s.servers|
  {
    match ch
    case ClientStep(c) => if c < |s.clients| then ClientMove(s, c) else None
    case ServerStep(x) => if x < |s.servers| then ServerMove(s, x) else None
  }

  /** The state after a schedule; a choice that cannot move is skipped. */
  ghost function Execute(win: W.Positive, base: nat, requests: seq<seq<W.Request>>, servers: nat, size: nat,
                         schedule: seq<Choice>): (s: System)
    requires size > 0
    ensures Shape(s) && |s.clients| == |requests| && |s.servers| == servers
  {
    if schedule == [] then Start(win, base, requests, servers, size)
    else
      var s := Execute(win, base, requests, servers, size, schedule[..|schedule| - 1]);
      match Step(s, schedule[|schedule| - 1])
      case None => s
      case Some(s') => s'
  }
}
