/**
 The peer-to-peer layer. PeerTable is one node's peer map under its mutex, one method
 per lock section. The system below it runs any number of nodes: accept and dial
 goroutines, one read loop per connection, disconnects and stops, in any interleaving.
 */
module PeerNetwork {
  import opened Outcomes
  import opened MapSums

  datatype Status = Connecting | Connected | Disconnected

  /** A decoded message; a handshake's payload may fail to parse. */
  datatype Message = Handshake(payload: Option<Hello>) | Ping | Pong | Other

  datatype Hello = Hello(version: string, blockHeight: int)

  datatype Error = PeerNotFound | AlreadyRunning | NotRunning | NotConnected | WriteFailed

  /** The value of a peer object. */
  datatype PeerInfo = PeerInfo(address: string, status: Status, version: string, blockHeight: int, open: bool)

  datatype Node = Node(peers: map<string, PeerInfo>, running: bool)

  // ---------- one lock section over values ----------

  function Registered(n: Node, id: string, address: string): Node {
    n.(peers := n.peers[id := PeerInfo(address, Connecting, "", 0, true)])
  }

  function Removed(n: Node, id: string): Node { n.(peers := n.peers - {id}) }

  function Greeted(n: Node, id: string, hello: Hello): Node {
    if id in n.peers then
      var p := n.peers[id];
      n.(peers := n.peers[id := p.(version := hello.version, blockHeight := hello.blockHeight, status := Connected)])
    else n
  }

  function Lost(n: Node, id: string): Node {
    if id in n.peers then n.(peers := n.peers[id := n.peers[id].(status := Disconnected)]) else n
  }

  function Cut(p: PeerInfo): PeerInfo { p.(status := Disconnected, open := false) }

  function Stopped(n: Node): Node {
    if n.running then
      Node(map id | id in n.peers :: Cut(n.peers[id]), false)
    else n
  }

  /** Send refuses unknown and disconnected peers. */
  predicate MaySend(n: Node, id: string) { id in n.peers && n.peers[id].status != Disconnected }

  // ---------- the table itself ----------

  class Peer {
    const id: string
    const address: string
    var status: Status
    var version: string
    var blockHeight: int
    var open: bool

    constructor (id: string, address: string)
      ensures this.id == id && Value() == PeerInfo(address, Connecting, "", 0, true)
    {
      this.id, this.address, status, version, blockHeight, open := id, address, Connecting, "", 0, true;
    }

    function Value(): PeerInfo
      reads this
    {
      PeerInfo(address, status, version, blockHeight, open)
    }
  }

  class PeerTable {
    var peers: map<string, Peer>
    var isRunning: bool

    ghost function Objects(): set<object>
      reads this
    {
      set id | id in peers :: peers[id] as object
    }

    ghost function View(): Node
      reads this, Objects()
    {
      Node(map id | id in peers :: peers[id].Value(), isRunning)
    }

    ghost predicate Valid()
      reads this, Objects()
    {
      forall id :: id in peers ==> peers[id].id == id
    }

    constructor ()
      ensures Valid() && View() == Node(map[], false)
    {
      peers, isRunning := map[], false;
    }

    method Start() returns (r: Result<(), Error>)
      requires Valid()
      modifies this`isRunning
      ensures Valid() && View() == old(View()).(running := true)
      ensures r == if old(View()).running then Err(AlreadyRunning) else Ok(())
    {
      if isRunning {
        return Err(AlreadyRunning);
      }
      isRunning := true;
      return Ok(());
    }

    /** Close one peer's connection and mark it, leaving the others alone. */
    method CutPeer(id: string)
      requires Valid() && id in peers
      modifies peers[id]
      ensures Valid() && peers[id].Value() == Cut(old(peers[id].Value()))
      ensures peers[id].Value() == old(peers[id].Value()).(status := Disconnected, open := false)
      ensures forall other :: other in peers && other != id ==> peers[other].Value() == old(peers[other].Value())
    {
      var peer := peers[id];
      peer.open := false;
      peer.status := Disconnected;
    }

    /** order is the iteration order of the peer map. */
    method Stop(order: seq<string>) returns (r: Result<(), Error>)
      requires Valid() && forall id :: id in order <==> id in peers
      modifies this`isRunning, Objects()
      ensures Valid() && View() == Stopped(old(View()))
      ensures !View().running && View().peers.Keys == old(View()).peers.Keys
      ensures forall id :: id in peers ==>
                View().peers[id] == if r.Ok? then old(View()).peers[id].(status := Disconnected, open := false)
                                    else old(View()).peers[id]
      ensures r == if old(View()).running then Ok(()) else Err(NotRunning)
    {
      if !isRunning {
        return Err(NotRunning);
      }
      isRunning := false;
      ghost var before := old(View()).peers;
      for i := 0 to |order|
        invariant Valid() && peers == old(peers) && !isRunning
        invariant forall id :: id in peers ==>
                    peers[id].Value() == if id in order[..i] then Cut(before[id]) else before[id]
      {
        assert order[i] in order && order[..i + 1] == order[..i] + [order[i]];
        CutPeer(order[i]);
      }
      assert order[..|order|] == order;
      assert View().peers == Stopped(old(View())).peers;
      return Ok(());
    }

    method RegisterPeer(id: string, address: string) returns (peer: Peer)
      requires Valid()
      modifies this`peers
      ensures Valid() && fresh(peer) && peer.id == id && id in peers && peers[id] == peer
      ensures View() == Registered(old(View()), id, address)
      ensures View().peers == old(View()).peers[id := PeerInfo(address, Connecting, "", 0, true)]
    {
      peer := new Peer(id, address);
      peers := peers[id := peer];
      assert View().peers == old(View()).peers[id := peer.Value()];
    }

    method RemovePeer(id: string)
      requires Valid()
      modifies this`peers, Objects()
      ensures Valid() && View() == Removed(old(View()), id) == old(View()).(peers := old(View()).peers - {id})
      ensures id in old(peers) ==> !old(peers)[id].open
    {
      if id in peers {
        peers[id].open := false;
        peers := peers - {id};
      }
      assert View().peers == old(View()).peers - {id};
    }

    method Disconnect(id: string) returns (r: Result<(), Error>)
      requires Valid()
      modifies this`peers, Objects()
      ensures Valid() && View() == Removed(old(View()), id) == old(View()).(peers := old(View()).peers - {id})
      ensures r == if id in old(peers) then Ok(()) else Err(PeerNotFound)
      ensures id in old(peers) ==> old(peers)[id].status == Disconnected && !old(peers)[id].open
    {
      if id !in peers {
        assert View().peers == old(View()).peers - {id};
        return Err(PeerNotFound);
      }
      var peer := peers[id];
      peer.open := false;
      peer.status := Disconnected;
      peers := peers - {id};
      assert View().peers == old(View()).peers - {id};
      return Ok(());
    }

    /** The locked part of handling a handshake. */
    method MarkConnected(id: string, hello: Hello)
      requires Valid()
      modifies Objects()
      ensures Valid() && View() == Greeted(old(View()), id, hello)
      ensures View().peers.Keys == old(View()).peers.Keys && isRunning == old(isRunning)
      ensures forall k :: k in peers ==>
                View().peers[k] == if k != id then old(View()).peers[k]
                                   else old(View()).peers[k].(
                                        version := hello.version, blockHeight := hello.blockHeight, status := Connected)
    {
      if id in peers {
        var p := peers[id];
        p.version := hello.version;
        p.blockHeight := hello.blockHeight;
        p.status := Connected;
        assert View().peers == old(View()).peers[id := p.Value()];
      }
    }

    /** The locked part of a read loop's exit. */
    method MarkDisconnected(id: string)
      requires Valid()
      modifies Objects()
      ensures Valid() && View() == Lost(old(View()), id)
      ensures View().peers.Keys == old(View()).peers.Keys && isRunning == old(isRunning)
      ensures forall k :: k in peers ==>
                View().peers[k] == if k != id then old(View()).peers[k]
                                   else old(View()).peers[k].(status := Disconnected)
    {
      if id in peers {
        var p := peers[id];
        p.status := Disconnected;
        assert View().peers == old(View()).peers[id := p.Value()];
      }
    }

    /** Whether a message may be written to a peer; written tells how the write itself goes. */
    method Send(id: string, written: bool) returns (r: Result<(), Error>)
      requires Valid()
      ensures r == if id !in View().peers then Err(PeerNotFound)
                   else if !MaySend(View(), id) then Err(NotConnected)
                   else if written then Ok(()) else Err(WriteFailed)
      ensures r == Err(NotConnected) <==> id in View().peers && View().peers[id].status == Disconnected
    {
      if id !in peers {
        return Err(PeerNotFound);
      }
      var peer := peers[id];
      if peer.status != Connected && peer.status != Connecting {
        return Err(NotConnected);
      }
      return if written then Ok(()) else Err(WriteFailed);
    }
  }

  // ---------- nodes and connections in any interleaving ----------

  /** A connection's read loop: not started, waiting, handling a message, or gone. */
  datatype Loop = Unstarted | Reading | Handling(msg: Message) | Exited

  /**
   One end of a connection, named by its peer ID at the node that holds it. buffer holds
   what its decoder has read off the connection but not yet decoded.
   */
  datatype End = End(node: nat, twin: string, dialled: bool, loop: Loop, buffer: seq<Message>, received: seq<Message>)

  /** wires holds the messages under way to each end, registered or not. */
  datatype System = System(nodes: map<nat, Node>, ends: map<string, End>, wires: map<string, seq<Message>>)

  datatype Step =
    | Register(id: string, node: nat, address: string, twin: string, dialled: bool)
    | Greet(id: string, hello: Hello, written: bool)
    | Fill(id: string, count: nat)
    | Read(id: string)
    | Handle(id: string, written: bool)
    | FailRead(id: string)
    | Disconnect(node: nat, id: string)
    | Start(node: nat)
    | Stop(node: nat)
    | Inject(id: string, msg: Message)
    | Lose(id: string)

  const NOTHING := System(map[], map[], map[])

  function NodeOf(y: System, n: nat): Node { if n in y.nodes then y.nodes[n] else Node(map[], false) }

  function Wire(y: System, id: string): seq<Message> { if id in y.wires then y.wires[id] else [] }

  function Deliver(y: System, id: string, msg: Message): System {
    y.(wires := y.wires[id := Wire(y, id) + [msg]])
  }

  /** Messages leave a wire in order. */
  function Take(y: System, id: string, count: nat): System
    requires count <= |Wire(y, id)|
  {
    y.(wires := y.wires[id := Wire(y, id)[count..]])
  }

  function SetEnd(y: System, id: string, e: End): System { y.(ends := y.ends[id := e]) }

  function SetLoop(y: System, id: string, loop: Loop): System
    requires id in y.ends
  {
    SetEnd(y, id, y.ends[id].(loop := loop))
  }

  function SetNode(y: System, n: nat, node: Node): System { y.(nodes := y.nodes[n := node]) }

  /** A peer taken off the list has had its connection closed. */
  predicate IsOpen(y: System, id: string) {
    id in y.ends && var n := NodeOf(y, y.ends[id].node); id in n.peers && n.peers[id].open
  }

  /** Whether a write goes out: written tells how an attempt on an open connection goes. */
  predicate Writes(y: System, id: string, written: bool) {
    written && IsOpen(y, id) && MaySend(NodeOf(y, y.ends[id].node), id)
  }

  /** Registering uses an ID never used before; the connection's far end is twin. */
  function RegisterStep(y: System, id: string, node: nat, address: string, twin: string, dialled: bool): System {
    if id in y.ends then y
    else SetEnd(SetNode(y, node, Registered(NodeOf(y, node), id, address)), id,
                End(node, twin, dialled, Unstarted, [], []))
  }

  /** Send our handshake, then start reading; a dialler that cannot send gives the peer up. */
  function GreetStep(y: System, id: string, hello: Hello, written: bool): System
    requires id in y.ends
  {
    var e := y.ends[id];
    if !e.loop.Unstarted? then y
    else if Writes(y, id, written) then Deliver(SetLoop(y, id, Reading), e.twin, Handshake(Some(hello)))
    else if e.dialled then SetNode(SetLoop(y, id, Exited), e.node, Removed(NodeOf(y, e.node), id))
    else SetLoop(y, id, Reading)
  }

  /** The decoder reads more only when it has nothing left to decode, and only off an open connection. */
  function FillStep(y: System, id: string, count: nat): System
    requires id in y.ends
  {
    var e := y.ends[id];
    if e.loop.Reading? && e.buffer == [] && IsOpen(y, id) && 0 < count <= |Wire(y, id)| then
      SetEnd(Take(y, id, count), id, e.(buffer := Wire(y, id)[..count]))
    else y
  }

  function ReadStep(y: System, id: string): System
    requires id in y.ends
  {
    var e := y.ends[id];
    if !e.loop.Reading? || e.buffer == [] then y
    else
      SetEnd(y, id, e.(loop := Handling(e.buffer[0]), buffer := e.buffer[1..], received := e.received + [e.buffer[0]]))
  }

  /** The user's handler is silent: it changes nothing here. */
  function HandleStep(y: System, id: string, written: bool): System
    requires id in y.ends
  {
    var e := y.ends[id];
    if !e.loop.Handling? then y
    else
      var y1 := SetLoop(y, id, Reading);
      match e.loop.msg
      case Handshake(Some(hello)) => SetNode(y1, e.node, Greeted(NodeOf(y, e.node), id, hello))
      case Ping => if Writes(y, id, written) then Deliver(y1, e.twin, Pong) else y1
      case _ => y1
  }

  /** The connection is gone, or what comes next does not decode. */
  function FailReadStep(y: System, id: string): System
    requires id in y.ends
  {
    var e := y.ends[id];
    if !e.loop.Reading? then y
    else SetNode(SetEnd(y, id, e.(loop := Exited, buffer := [])), e.node, Lost(NodeOf(y, e.node), id))
  }

  function Next(y: System, step: Step): System {
    match step
    case Register(id, node, address, twin, dialled) => RegisterStep(y, id, node, address, twin, dialled)
    case Greet(id, hello, written) => if id in y.ends then GreetStep(y, id, hello, written) else y
    case Fill(id, count) => if id in y.ends then FillStep(y, id, count) else y
    case Read(id) => if id in y.ends then ReadStep(y, id) else y
    case Handle(id, written) => if id in y.ends then HandleStep(y, id, written) else y
    case FailRead(id) => if id in y.ends then FailReadStep(y, id) else y
    case Disconnect(node, id) => SetNode(y, node, Removed(NodeOf(y, node), id))
    case Start(node) => SetNode(y, node, NodeOf(y, node).(running := true))
    case Stop(node) => SetNode(y, node, Stopped(NodeOf(y, node)))
    case Inject(id, msg) => Deliver(y, id, msg)
    case Lose(id) => if Wire(y, id) == [] then y else Take(y, id, 1)
  }

  function Run(y: System, steps: seq<Step>): System
    decreases |steps|
  {
    if steps == [] then y else Run(Next(y, steps[0]), steps[1..])
  }

  // ---------- safety ----------

  /** A handshake whose payload parses. */
  predicate IsHello(m: Message) { m.Handshake? && m.payload.Some? }

  predicate HasHello(ms: seq<Message>) { exists i :: 0 <= i < |ms| && IsHello(ms[i]) }

  /** What holds of one end: its buffer is its read loop's, and its listed status fits its loop and what it received. */
  ghost predicate EndSound(y: System, id: string) {
    && id in y.ends
    && var e := y.ends[id];
       && (e.loop.Unstarted? || e.loop.Exited? ==> e.buffer == [])
       && (e.loop.Handling? ==> e.received != [] && e.received[|e.received| - 1] == e.loop.msg)
       && (id in NodeOf(y, e.node).peers ==>
             var status := NodeOf(y, e.node).peers[id].status;
             && (status == Connected ==> HasHello(e.received))
             && (e.loop.Exited? ==> status == Disconnected))
  }

  ghost predicate Sound(y: System) {
    && (forall id :: id in y.ends ==> EndSound(y, id))
    && (forall n, id :: id in NodeOf(y, n).peers ==> id in y.ends && y.ends[id].node == n)
  }

  lemma HelloStays(ms: seq<Message>, m: Message)
    requires HasHello(ms)
    ensures HasHello(ms + [m])
  {
    var i :| 0 <= i < |ms| && IsHello(ms[i]);
    assert (ms + [m])[i] == ms[i];
  }

  /** A listed ID was listed before, or is the one just registered. */
  lemma ListedBefore(y: System, step: Step, n: nat, id: string)
    requires id in NodeOf(Next(y, step), n).peers
    ensures id in NodeOf(y, n).peers || (step.Register? && step.id == id && step.node == n && id !in y.ends)
  {}

  lemma EndsStay(y: System, step: Step, id: string)
    requires id in y.ends
    ensures id in Next(y, step).ends && Next(y, step).ends[id].node == y.ends[id].node
    ensures y.ends[id].loop.Exited? ==> Next(y, step).ends[id].loop.Exited?
    ensures HasHello(y.ends[id].received) ==> HasHello(Next(y, step).ends[id].received)
  {
    var e, e' := y.ends[id], Next(y, step).ends[id];
    if HasHello(e.received) && e'.received != e.received {
      assert step == Read(id) && e'.received == e.received + [e.buffer[0]];
      HelloStays(e.received, e.buffer[0]);
    }
  }

  lemma NextKeepsListing(y: System, step: Step, n: nat, id: string)
    requires Sound(y) && id in NodeOf(Next(y, step), n).peers
    ensures id in Next(y, step).ends && Next(y, step).ends[id].node == n
  {
    ListedBefore(y, step, n, id);
    if id in NodeOf(y, n).peers {
      EndsStay(y, step, id);
    }
  }

  /** How a status can change: Connected only by this end's own handshake, and a loop's exit disconnects. */
  lemma StatusChange(y: System, step: Step, id: string)
    requires id in y.ends && id in NodeOf(y, y.ends[id].node).peers
    requires id in NodeOf(Next(y, step), y.ends[id].node).peers
    ensures var e := y.ends[id];
            var was, now := NodeOf(y, e.node).peers[id].status, NodeOf(Next(y, step), e.node).peers[id].status;
            && (now == was || now == Disconnected
                || (now == Connected && e.loop.Handling? && IsHello(e.loop.msg)))
            && (Next(y, step).ends[id].loop.Exited? && !e.loop.Exited? ==> now == Disconnected)
  {}

  lemma BufferIsTheLoops(y: System, step: Step, id: string)
    requires id in y.ends && (y.ends[id].loop.Unstarted? || y.ends[id].loop.Exited? ==> y.ends[id].buffer == [])
    ensures var e' := Next(y, step).ends[id];
            e'.loop.Unstarted? || e'.loop.Exited? ==> e'.buffer == []
  {}

  lemma HandlingIsLatest(y: System, step: Step, id: string)
    requires id in y.ends && Next(y, step).ends[id].loop.Handling?
    requires y.ends[id].loop.Handling? ==>
               y.ends[id].received != [] && y.ends[id].received[|y.ends[id].received| - 1] == y.ends[id].loop.msg
    ensures var e' := Next(y, step).ends[id];
            e'.received != [] && e'.received[|e'.received| - 1] == e'.loop.msg
  {}

  lemma OldEndSound(y: System, step: Step, id: string)
    requires EndSound(y, id)
    requires id in NodeOf(Next(y, step), y.ends[id].node).peers ==> id in NodeOf(y, y.ends[id].node).peers
    ensures EndSound(Next(y, step), id)
  {
    var e := y.ends[id];
    EndsStay(y, step, id);
    BufferIsTheLoops(y, step, id);
    if Next(y, step).ends[id].loop.Handling? {
      HandlingIsLatest(y, step, id);
    }
    if id in NodeOf(Next(y, step), e.node).peers {
      StatusChange(y, step, id);
      assert e.loop.Handling? && IsHello(e.loop.msg) ==> HasHello(e.received);
    }
  }

  lemma NewEndSound(y: System, step: Step, id: string)
    requires id !in y.ends && id in Next(y, step).ends
    ensures EndSound(Next(y, step), id)
  {}

  lemma NextKeepsEnd(y: System, step: Step, id: string)
    requires Sound(y) && id in Next(y, step).ends
    ensures EndSound(Next(y, step), id)
  {
    if id in y.ends {
      if id in NodeOf(Next(y, step), y.ends[id].node).peers {
        ListedBefore(y, step, y.ends[id].node, id);
      }
      OldEndSound(y, step, id);
    } else {
      NewEndSound(y, step, id);
    }
  }

  lemma {:induction false} RunSound(y: System, steps: seq<Step>)
    requires Sound(y)
    ensures Sound(Run(y, steps))
    decreases |steps|
  {
    if steps != [] {
      forall n, id | id in NodeOf(Next(y, steps[0]), n).peers
        ensures id in Next(y, steps[0]).ends && Next(y, steps[0]).ends[id].node == n
      {
        NextKeepsListing(y, steps[0], n, id);
      }
      forall id | id in Next(y, steps[0]).ends ensures EndSound(Next(y, steps[0]), id) {
        NextKeepsEnd(y, steps[0], id);
      }
      RunSound(Next(y, steps[0]), steps[1..]);
    }
  }

  /** In every interleaving, a peer listed as Connected has read a valid handshake on its own connection. */
  lemma ConnectedMeansGreeted(steps: seq<Step>, n: nat, id: string)
    requires id in NodeOf(Run(NOTHING, steps), n).peers
    requires NodeOf(Run(NOTHING, steps), n).peers[id].status == Connected
    ensures id in Run(NOTHING, steps).ends
    ensures HasHello(Run(NOTHING, steps).ends[id].received)
    ensures !Run(NOTHING, steps).ends[id].loop.Exited?
  {
    RunSound(NOTHING, steps);
    assert EndSound(Run(NOTHING, steps), id);
  }

  /** An ID once taken off its node's list is never listed there again. */
  lemma {:induction false} RemovedStaysRemoved(y: System, steps: seq<Step>, id: string)
    requires id in y.ends && id !in NodeOf(y, y.ends[id].node).peers
    ensures id in Run(y, steps).ends && Run(y, steps).ends[id].node == y.ends[id].node
    ensures id !in NodeOf(Run(y, steps), y.ends[id].node).peers
    decreases |steps|
  {
    if steps != [] {
      var n := y.ends[id].node;
      EndsStay(y, steps[0], id);
      if id in NodeOf(Next(y, steps[0]), n).peers {
        ListedBefore(y, steps[0], n, id);
      }
      RemovedStaysRemoved(Next(y, steps[0]), steps[1..], id);
    }
  }

  lemma {:induction false} ExitedStays(y: System, steps: seq<Step>, id: string)
    requires id in y.ends && y.ends[id].loop.Exited?
    ensures id in Run(y, steps).ends && Run(y, steps).ends[id].loop.Exited?
    decreases |steps|
  {
    if steps != [] {
      EndsStay(y, steps[0], id);
      ExitedStays(Next(y, steps[0]), steps[1..], id);
    }
  }

  /** Once an end's read loop has exited, no continuation lists it as Connected. */
  lemma NeverConnectedAfterExit(before: seq<Step>, after: seq<Step>, id: string, n: nat)
    requires id in Run(NOTHING, before).ends && Run(NOTHING, before).ends[id].loop.Exited?
    ensures var y := Run(Run(NOTHING, before), after);
            id in NodeOf(y, n).peers ==> NodeOf(y, n).peers[id].status == Disconnected
  {
    var y := Run(Run(NOTHING, before), after);
    ExitedStays(Run(NOTHING, before), after, id);
    RunSound(NOTHING, before);
    RunSound(Run(NOTHING, before), after);
    assert EndSound(y, id);
  }

  // ---------- who leaves, leaves for good ----------

  lemma {:induction false} RunConcat(y: System, steps: seq<Step>, more: seq<Step>)
    ensures Run(y, steps + more) == Run(Run(y, steps), more)
    decreases |steps|
  {
    if steps == [] {
      assert steps + more == more;
    } else {
      assert (steps + more)[1..] == steps[1..] + more;
      RunConcat(Next(y, steps[0]), steps[1..], more);
    }
  }

  /** A peer that a node disconnects is off its list in every continuation. */
  lemma DisconnectIsFinal(before: seq<Step>, after: seq<Step>, id: string)
    requires id in Run(NOTHING, before).ends
    ensures var y := Run(NOTHING, before);
            var n := y.ends[id].node;
            id !in NodeOf(Run(Next(y, Disconnect(n, id)), after), n).peers
  {
    var y := Run(NOTHING, before);
    RemovedStaysRemoved(Next(y, Disconnect(y.ends[id].node, id)), after, id);
  }

  /** A read that fails ends its loop for good, and lists the peer as Disconnected or not at all ever after. */
  lemma FailedReadIsFinal(before: seq<Step>, after: seq<Step>, id: string)
    requires id in Run(NOTHING, before).ends && Run(NOTHING, before).ends[id].loop.Reading?
    ensures var y := Run(NOTHING, before);
            var z := Run(Next(y, FailRead(id)), after);
            && id in z.ends && z.ends[id].loop.Exited?
            && (id in NodeOf(z, y.ends[id].node).peers ==>
                  NodeOf(z, y.ends[id].node).peers[id].status == Disconnected)
  {
    var y := Run(NOTHING, before);
    RunConcat(NOTHING, before, [FailRead(id)]);
    assert Run(y, [FailRead(id)]) == Next(y, FailRead(id)) by {
      assert [FailRead(id)][1..] == [];
    }
    ExitedStays(Next(y, FailRead(id)), after, id);
    NeverConnectedAfterExit(before + [FailRead(id)], after, id, y.ends[id].node);
  }

  /** A dialler that cannot send its greeting is given up for good; an accepted connection is read all the same. */
  lemma FailedGreeting(before: seq<Step>, after: seq<Step>, id: string, hello: Hello)
    requires id in Run(NOTHING, before).ends && Run(NOTHING, before).ends[id].loop.Unstarted?
    ensures var y := Run(NOTHING, before);
            var e, y' := y.ends[id], Next(y, Greet(id, hello, false));
            if e.dialled then
              var z := Run(y', after);
              id in z.ends && z.ends[id].loop.Exited? && id !in NodeOf(z, e.node).peers
            else y' == y.(ends := y.ends[id := e.(loop := Reading)])
  {
    var y := Run(NOTHING, before);
    if y.ends[id].dialled {
      var y' := Next(y, Greet(id, hello, false));
      RemovedStaysRemoved(y', after, id);
      ExitedStays(y', after, id);
    }
  }

  // ---------- what goes over a connection ----------

  /** Everything that has come over a connection to one end, and what is on its way there, oldest first. */
  function Stream(y: System, id: string): seq<Message>
    requires id in y.ends
  {
    y.ends[id].received + y.ends[id].buffer + Wire(y, id)
  }

  lemma FillMovesOn(y: System, id: string, count: nat)
    requires id in y.ends
    ensures var y' := FillStep(y, id, count); Stream(y, id) == Stream(y', id)
    ensures FillStep(y, id, count).ends[id].received == y.ends[id].received
  {
    var e, y' := y.ends[id], FillStep(y, id, count);
    if y' != y {
      assert Wire(y, id) == y'.ends[id].buffer + Wire(y', id);
      assert e.received + [] + (y'.ends[id].buffer + Wire(y', id)) == e.received + y'.ends[id].buffer + Wire(y', id);
    }
  }

  lemma ReadMovesOn(y: System, id: string)
    requires id in y.ends
    ensures Stream(y, id) == Stream(ReadStep(y, id), id)
    ensures y.ends[id].received <= ReadStep(y, id).ends[id].received
  {
    var e, y' := y.ends[id], ReadStep(y, id);
    if y' != y {
      assert e.received + e.buffer == y'.ends[id].received + y'.ends[id].buffer;
    }
  }

  lemma OthersAdd(y: System, step: Step, id: string)
    requires id in y.ends && step != Lose(id) && step != FailRead(id)
    requires !(step.Fill? && step.id == id) && step != Read(id)
    ensures var y' := Next(y, step);
            && id in y'.ends && y'.ends[id].received == y.ends[id].received && y'.ends[id].buffer == y.ends[id].buffer
            && Wire(y, id) <= Wire(y', id)
  {}

  lemma StreamGrows(y: System, step: Step, id: string)
    requires id in y.ends && step != Lose(id) && step != FailRead(id)
    ensures id in Next(y, step).ends && Stream(y, id) <= Stream(Next(y, step), id)
    ensures y.ends[id].received <= Next(y, step).ends[id].received
  {
    if step.Fill? && step.id == id {
      FillMovesOn(y, id, step.count);
    } else if step == Read(id) {
      ReadMovesOn(y, id);
    } else {
      OthersAdd(y, step, id);
    }
  }

  /** Without a loss or a failed read, what was under way or read stays in its order, and more is added behind it. */
  lemma {:induction false} StreamsKeepOrder(y: System, steps: seq<Step>, id: string)
    requires id in y.ends && Lose(id) !in steps && FailRead(id) !in steps
    ensures id in Run(y, steps).ends && Stream(y, id) <= Stream(Run(y, steps), id)
    ensures y.ends[id].received <= Run(y, steps).ends[id].received
    decreases |steps|
  {
    if steps != [] {
      StreamGrows(y, steps[0], id);
      StreamsKeepOrder(Next(y, steps[0]), steps[1..], id);
    }
  }

  /** A read loop with nothing to read, whose peer may be written to. */
  predicate AtRest(y: System, id: string) {
    && id in y.ends && y.ends[id].loop.Reading? && y.ends[id].buffer == [] && Wire(y, id) == []
    && IsOpen(y, id) && MaySend(NodeOf(y, y.ends[id].node), id)
  }

  lemma ReceiveOne(y: System, id: string, msg: Message)
    requires id in y.ends && y.ends[id].loop.Reading? && y.ends[id].buffer == [] && IsOpen(y, id)
    requires Wire(y, id) == [msg]
    ensures var z, e := Next(Next(y, Fill(id, 1)), Read(id)), y.ends[id];
            && z.nodes == y.nodes && z.wires == y.wires[id := []]
            && z.ends == y.ends[id := e.(loop := Handling(msg), received := e.received + [msg])]
  {
    var e, y1 := y.ends[id], Next(y, Fill(id, 1));
    assert Wire(y, id)[..1] == [msg] && Wire(y, id)[1..] == [];
    assert y1 == System(y.nodes, y.ends[id := e.(buffer := [msg])], y.wires[id := []]);
    assert [msg][1..] == [];
  }

  lemma PingAnswered(y: System, p: string, q: string)
    requires p != q && AtRest(y, p) && AtRest(y, q) && y.ends[q].twin == p
    ensures var z := Next(Next(Next(Next(y, Inject(q, Ping)), Fill(q, 1)), Read(q)), Handle(q, true));
            && z.nodes == y.nodes && Wire(z, p) == [Pong] && Wire(z, q) == []
            && z.ends == y.ends[q := y.ends[q].(received := y.ends[q].received + [Ping])]
  {
    var y1 := Next(y, Inject(q, Ping));
    assert Wire(y1, q) == [Ping];
    ReceiveOne(y1, q, Ping);
    var y2 := Next(Next(y1, Fill(q, 1)), Read(q));
    assert y2.nodes == y.nodes && Wire(y2, p) == [];
  }

  /** A ping sent to an end at rest is read there and answered with a pong, which is read at the twin. */
  lemma PingComesBack(y: System, p: string, q: string)
    requires p != q && AtRest(y, p) && AtRest(y, q) && y.ends[q].twin == p
    ensures var there := Next(Next(Next(Next(y, Inject(q, Ping)), Fill(q, 1)), Read(q)), Handle(q, true));
            var z := Next(Next(there, Fill(p, 1)), Read(p));
            && z.nodes == y.nodes && Wire(z, p) == [] == Wire(z, q)
            && p in z.ends && q in z.ends && z.ends[q].received == y.ends[q].received + [Ping]
            && z.ends[p].received == y.ends[p].received + [Pong] && z.ends[p].loop == Handling(Pong)
  {
    PingAnswered(y, p, q);
    ReceiveOne(Next(Next(Next(Next(y, Inject(q, Ping)), Fill(q, 1)), Read(q)), Handle(q, true)), p, Pong);
  }

  /** Read and handle so many messages. */
  function Readings(id: string, count: nat): seq<Step> {
    if count == 0 then [] else [Read(id), Handle(id, true)] + Readings(id, count - 1)
  }

  lemma ReadAndHandle(y: System, id: string)
    requires id in y.ends && y.ends[id].loop.Reading? && y.ends[id].buffer != []
    ensures var z, e := Next(Next(y, Read(id)), Handle(id, true)), y.ends[id];
            id in z.ends && z.ends[id] == e.(buffer := e.buffer[1..], received := e.received + [e.buffer[0]])
  {
    var y1 := Next(y, Read(id));
    assert y1.ends[id].loop == Handling(y.ends[id].buffer[0]);
  }

  /** What the decoder holds is read in its order, whatever the node's state. */
  lemma {:induction false} BufferIsRead(y: System, id: string)
    requires id in y.ends && y.ends[id].loop.Reading?
    ensures var z, e := Run(y, Readings(id, |y.ends[id].buffer|)), y.ends[id];
            id in z.ends && z.ends[id] == e.(buffer := [], received := e.received + e.buffer)
    decreases |y.ends[id].buffer|
  {
    var e := y.ends[id];
    if e.buffer != [] {
      var z, rest := Next(Next(y, Read(id)), Handle(id, true)), Readings(id, |e.buffer| - 1);
      ReadAndHandle(y, id);
      BufferIsRead(z, id);
      var steps := Readings(id, |e.buffer|);
      assert steps[1..][1..] == rest && steps[0] == Read(id) && steps[1] == Handle(id, true);
      assert Run(y, steps) == Run(Next(y, steps[0]), steps[1..]) == Run(z, rest);
      assert e.received + e.buffer == e.received + [e.buffer[0]] + e.buffer[1..];
    }
  }

  /** However much the decoder took off the connection, all of it is read although the node stops then. */
  lemma ReadAfterStop(y: System, id: string, count: nat)
    requires id in y.ends && y.ends[id].loop.Reading? && y.ends[id].buffer == [] && IsOpen(y, id)
    requires 0 < count <= |Wire(y, id)|
    ensures var e := y.ends[id];
            var z := Run(Next(Next(y, Fill(id, count)), Stop(e.node)), Readings(id, count));
            id in z.ends && z.ends[id] == e.(received := e.received + Wire(y, id)[..count])
  {
    var e := y.ends[id];
    var y1 := Next(Next(y, Fill(id, count)), Stop(e.node));
    assert y1.ends[id] == e.(buffer := Wire(y, id)[..count]);
    BufferIsRead(y1, id);
  }

  /** Two ends of a new connection, registered at their nodes, that have greeted each other. */
  function Met(y: System, p: string, n: nat, a: string, hp: Hello, q: string, m: nat, b: string, hq: Hello): System {
    Next(Next(Next(Next(y, Register(p, n, a, q, true)), Register(q, m, b, p, false)),
              Greet(p, hp, true)), Greet(q, hq, true))
  }

  lemma MetState(y: System, p: string, n: nat, a: string, hp: Hello, q: string, m: nat, b: string, hq: Hello)
    requires p != q && p !in y.ends && q !in y.ends && Wire(y, p) == [] == Wire(y, q)
    ensures var z := Met(y, p, n, a, hp, q, m, b, hq);
            && Wire(z, q) == [Handshake(Some(hp))] && Wire(z, p) == [Handshake(Some(hq))]
            && p in z.ends && z.ends[p] == End(n, q, true, Reading, [], [])
            && q in z.ends && z.ends[q] == End(m, p, false, Reading, [], [])
            && p in NodeOf(z, n).peers && NodeOf(z, n).peers[p] == PeerInfo(a, Connecting, "", 0, true)
            && q in NodeOf(z, m).peers && NodeOf(z, m).peers[q] == PeerInfo(b, Connecting, "", 0, true)
  {
    var y1 := Next(y, Register(p, n, a, q, true));
    var y2 := Next(y1, Register(q, m, b, p, false));
    assert p in NodeOf(y2, n).peers && NodeOf(y2, n).peers[p] == PeerInfo(a, Connecting, "", 0, true);
    assert q in NodeOf(y2, m).peers && NodeOf(y2, m).peers[q] == PeerInfo(b, Connecting, "", 0, true);
    var y3 := Next(y2, Greet(p, hp, true));
    assert y3.nodes == y2.nodes && Wire(y3, q) == [Handshake(Some(hp))];
  }

  /** Reading and handling a greeting marks the peer Connected, with what the greeting announced. */
  lemma GreetingConnects(y: System, id: string, hello: Hello)
    requires id in y.ends && y.ends[id].loop.Reading? && y.ends[id].buffer == [] && IsOpen(y, id)
    requires Wire(y, id) == [Handshake(Some(hello))]
    ensures var e, z := y.ends[id], Next(Next(Next(y, Fill(id, 1)), Read(id)), Handle(id, true));
            && z.ends == y.ends[id := e.(received := e.received + [Handshake(Some(hello))])]
            && z.wires == y.wires[id := []]
            && (forall n :: NodeOf(z, n).running == NodeOf(y, n).running
                            && NodeOf(z, n).peers.Keys == NodeOf(y, n).peers.Keys)
            && id in NodeOf(y, e.node).peers
            && NodeOf(z, e.node).peers[id]
               == PeerInfo(NodeOf(y, e.node).peers[id].address, Connected, hello.version, hello.blockHeight, true)
            && forall n, k :: k in NodeOf(y, n).peers && (n != e.node || k != id) ==>
                                NodeOf(z, n).peers[k] == NodeOf(y, n).peers[k]
  {
    ReceiveOne(y, id, Handshake(Some(hello)));
  }

  /** Two nodes that meet: both ends come to be listed as Connected, each with what the other announced. */
  lemma MeetingConnectsBoth(y: System, p: string, n: nat, a: string, hp: Hello, q: string, m: nat, b: string, hq: Hello)
    requires p != q && p !in y.ends && q !in y.ends && Wire(y, p) == [] == Wire(y, q)
    ensures var met := Met(y, p, n, a, hp, q, m, b, hq);
            var half := Next(Next(Next(met, Fill(q, 1)), Read(q)), Handle(q, true));
            var z := Next(Next(Next(half, Fill(p, 1)), Read(p)), Handle(p, true));
            && p in NodeOf(z, n).peers && q in NodeOf(z, m).peers
            && NodeOf(z, n).peers[p] == PeerInfo(a, Connected, hq.version, hq.blockHeight, true)
            && NodeOf(z, m).peers[q] == PeerInfo(b, Connected, hp.version, hp.blockHeight, true)
  {
    var met := Met(y, p, n, a, hp, q, m, b, hq);
    var half := Next(Next(Next(met, Fill(q, 1)), Read(q)), Handle(q, true));
    MetState(y, p, n, a, hp, q, m, b, hq);
    GreetingConnects(met, q, hp);
    GreetingConnects(half, p, hq);
  }

  // ---------- messages drain ----------

  /** A ping counts double: it is answered by one message. */
  function Weight(m: Message): real { if m.Ping? then 2.0 else 1.0 }

  /** Three per unit of weight, less one for each stage a message has passed. */
  function Load1(ms: seq<Message>, stage: real): real {
    if ms == [] then 0.0 else 3.0 * Weight(ms[0]) - stage + Load1(ms[1..], stage)
  }

  function WireLoad(ms: seq<Message>): real { Load1(ms, 0.0) }

  /** A pending greeting is one message to come. */
  function LoopLoad(loop: Loop): real {
    match loop
    case Unstarted => 4.0
    case Handling(msg) => 3.0 * Weight(msg) - 2.0
    case _ => 0.0
  }

  function EndLoad(e: End): real { LoopLoad(e.loop) + Load1(e.buffer, 1.0) }

  ghost function Load(y: System): real { Sum(y.wires, WireLoad) + Sum(y.ends, EndLoad) }

  /** Steps other than new connections and outside sends. */
  predicate Quiet(step: Step) { !step.Register? && !step.Inject? }

  /** The steps that move a message, from one end's greeting to its handling at the other. */
  predicate Moves(y: System, step: Step) {
    match step
    case Greet(id, _, _) => id in y.ends && y.ends[id].loop.Unstarted?
    case Fill(id, count) => id in y.ends && FillStep(y, id, count) != y
    case Read(id) => id in y.ends && y.ends[id].loop.Reading? && y.ends[id].buffer != []
    case Handle(id, _) => id in y.ends && y.ends[id].loop.Handling?
    case Lose(id) => Wire(y, id) != []
    case _ => false
  }

  function MovesIn(y: System, steps: seq<Step>): nat
    decreases |steps|
  {
    if steps == [] then 0
    else (if Moves(y, steps[0]) then 1 else 0) + MovesIn(Next(y, steps[0]), steps[1..])
  }

  lemma {:induction false} LoadSplit(ms: seq<Message>, stage: real, k: nat)
    requires k <= |ms|
    ensures Load1(ms, stage) == Load1(ms[..k], stage) + Load1(ms[k..], stage)
    decreases |ms|
  {
    if k == 0 {
      assert ms[0..] == ms;
    } else {
      assert ms[..k][1..] == ms[1..][..k - 1] && ms[1..][k - 1..] == ms[k..];
      LoadSplit(ms[1..], stage, k - 1);
    }
  }

  lemma LoadAppend(ms: seq<Message>, stage: real, m: Message)
    ensures Load1(ms + [m], stage) == Load1(ms, stage) + 3.0 * Weight(m) - stage
  {
    LoadSplit(ms + [m], stage, |ms|);
    assert (ms + [m])[..|ms|] == ms && (ms + [m])[|ms|..] == [m];
    assert Load1([m], stage) == 3.0 * Weight(m) - stage + Load1([m][1..], stage);
  }

  /** Each message that passes a stage takes one off. */
  lemma {:induction false} LoadNextStage(ms: seq<Message>)
    ensures Load1(ms, 1.0) == Load1(ms, 0.0) - |ms| as real
    decreases |ms|
  {
    if ms != [] {
      LoadNextStage(ms[1..]);
    }
  }

  lemma DeliverLoad(y: System, id: string, m: Message)
    ensures Load(Deliver(y, id, m)) == Load(y) + 3.0 * Weight(m)
  {
    SumUpdate(y.wires, WireLoad, id, Wire(y, id) + [m]);
    LoadAppend(Wire(y, id), 0.0, m);
  }

  lemma TakeLoad(y: System, id: string, count: nat)
    requires count <= |Wire(y, id)|
    ensures Load(Take(y, id, count)) == Load(y) - Load1(Wire(y, id)[..count], 0.0)
  {
    SumUpdate(y.wires, WireLoad, id, Wire(y, id)[count..]);
    LoadSplit(Wire(y, id), 0.0, count);
  }

  lemma SetEndLoad(y: System, id: string, e: End)
    requires id in y.ends
    ensures Load(SetEnd(y, id, e)) == Load(y) - EndLoad(y.ends[id]) + EndLoad(e)
  {
    SumUpdate(y.ends, EndLoad, id, e);
  }

  lemma SameLoad(y: System, y': System)
    requires y'.wires == y.wires && y'.ends == y.ends
    ensures Load(y') == Load(y)
  {}

  lemma {:induction false} LoadNonNegative1(ms: seq<Message>, stage: real)
    requires stage <= 1.0
    ensures Load1(ms, stage) >= 0.0
    ensures ms != [] ==> Load1(ms, stage) >= 2.0
    decreases |ms|
  {
    if ms != [] {
      LoadNonNegative1(ms[1..], stage);
    }
  }

  lemma GreetDrains(y: System, id: string, hello: Hello, written: bool)
    requires id in y.ends && y.ends[id].loop.Unstarted?
    ensures Load(GreetStep(y, id, hello, written)) <= Load(y) - 1.0
  {
    var e := y.ends[id];
    SetEndLoad(y, id, e.(loop := Reading));
    SetEndLoad(y, id, e.(loop := Exited));
    DeliverLoad(SetLoop(y, id, Reading), e.twin, Handshake(Some(hello)));
    SameLoad(SetLoop(y, id, Exited), SetNode(SetLoop(y, id, Exited), e.node, Removed(NodeOf(y, e.node), id)));
  }

  lemma FillDrains(y: System, id: string, count: nat)
    requires id in y.ends
    ensures Load(FillStep(y, id, count)) <= Load(y) - if FillStep(y, id, count) != y then 1.0 else 0.0
  {
    if FillStep(y, id, count) != y {
      var e, ms := y.ends[id], Wire(y, id)[..count];
      TakeLoad(y, id, count);
      SetEndLoad(Take(y, id, count), id, e.(buffer := ms));
      LoadNextStage(ms);
    }
  }

  lemma ReadDrains(y: System, id: string)
    requires id in y.ends && y.ends[id].loop.Reading? && y.ends[id].buffer != []
    ensures Load(ReadStep(y, id)) == Load(y) - 1.0
  {
    var e := y.ends[id];
    var m := e.buffer[0];
    SetEndLoad(y, id, e.(loop := Handling(m), buffer := e.buffer[1..], received := e.received + [m]));
  }

  lemma HandleDrains(y: System, id: string, written: bool)
    requires id in y.ends && y.ends[id].loop.Handling?
    ensures Load(HandleStep(y, id, written)) <= Load(y) - 1.0
  {
    var e := y.ends[id];
    var y1 := SetLoop(y, id, Reading);
    SetEndLoad(y, id, e.(loop := Reading));
    DeliverLoad(y1, e.twin, Pong);
    SameLoad(y1, SetNode(y1, e.node, NodeOf(HandleStep(y, id, written), e.node)));
  }

  lemma FailReadDrains(y: System, id: string)
    requires id in y.ends
    ensures Load(FailReadStep(y, id)) <= Load(y)
  {
    var e := y.ends[id];
    if e.loop.Reading? {
      SetEndLoad(y, id, e.(loop := Exited, buffer := []));
      LoadNonNegative1(e.buffer, 1.0);
      SameLoad(SetEnd(y, id, e.(loop := Exited, buffer := [])), FailReadStep(y, id));
    }
  }

  /** Every quiet step that moves a message lowers the load by at least one; no other raises it. */
  lemma QuietStepDrains(y: System, step: Step)
    requires Quiet(step)
    ensures Load(Next(y, step)) <= Load(y) - if Moves(y, step) then 1.0 else 0.0
  {
    match step
    case Greet(id, hello, written) => if Moves(y, step) { GreetDrains(y, id, hello, written); }
    case Fill(id, count) => if id in y.ends { FillDrains(y, id, count); }
    case Read(id) => if Moves(y, step) { ReadDrains(y, id); }
    case Handle(id, written) => if Moves(y, step) { HandleDrains(y, id, written); }
    case FailRead(id) => if id in y.ends { FailReadDrains(y, id); }
    case Disconnect(_, _) => SameLoad(y, Next(y, step));
    case Start(_) => SameLoad(y, Next(y, step));
    case Stop(_) => SameLoad(y, Next(y, step));
    case Lose(id) =>
      if Moves(y, step) {
        TakeLoad(y, id, 1);
        LoadNonNegative1(Wire(y, id)[..1], 0.0);
      }
  }

  lemma {:induction false} SumNonNegative<K, V>(m: map<K, V>, f: V -> real)
    requires forall v :: f(v) >= 0.0
    ensures Sum(m, f) >= 0.0
    decreases |m|
  {
    if m != map[] {
      var k :| k in m && Sum(m, f) == f(m[k]) + Sum(m - {k}, f);
      SumNonNegative(m - {k}, f);
    }
  }

  lemma LoadNonNegative(y: System)
    ensures Load(y) >= 0.0
  {
    forall ms: seq<Message> ensures WireLoad(ms) >= 0.0 {
      LoadNonNegative1(ms, 0.0);
    }
    forall e: End ensures EndLoad(e) >= 0.0 {
      LoadNonNegative1(e.buffer, 1.0);
    }
    SumNonNegative(y.wires, WireLoad);
    SumNonNegative(y.ends, EndLoad);
  }

  /**
   Draining: with no new connections and no outside sends, the messages under way, the
   greetings still to be sent and the answers they cause can be moved only a bounded
   number of times, however the steps of all nodes interleave.
   */
  lemma {:induction false} QuietRunDrains(y: System, steps: seq<Step>)
    requires forall s :: s in steps ==> Quiet(s)
    ensures MovesIn(y, steps) as real <= Load(y) - Load(Run(y, steps))
    ensures MovesIn(y, steps) as real <= Load(y)
    decreases |steps|
  {
    LoadNonNegative(y);
    if steps != [] {
      assert steps[0] in steps;
      QuietStepDrains(y, steps[0]);
      QuietRunDrains(Next(y, steps[0]), steps[1..]);
    }
    LoadNonNegative(Run(y, steps));
  }

  // ---------- exactly when Stop's promise holds ----------

  ghost predicate ShowsConnected(y: System, n: nat, id: string) {
    id in NodeOf(y, n).peers && NodeOf(y, n).peers[id].status == Connected
  }

  /** Right after Stop no peer of the node is Connected and every connection is closed. */
  lemma StopDisconnects(y: System, n: nat, id: string)
    requires NodeOf(y, n).running && id in NodeOf(y, n).peers
    ensures var y' := Next(y, Stop(n));
            && id in NodeOf(y', n).peers && NodeOf(y', n).peers[id].status == Disconnected
            && !NodeOf(y', n).peers[id].open
            && y'.ends == y.ends
  {}

  /** A valid handshake in hand, or read off the connection and still to be decoded. */
  predicate HelloPending(e: End) { (e.loop.Handling? && IsHello(e.loop.msg)) || HasHello(e.buffer) }

  /** An end whose connection is closed, not shown as connected, with no handshake left to handle. */
  ghost predicate Inert(y: System, n: nat, id: string) {
    && id in y.ends && y.ends[id].node == n && !HelloPending(y.ends[id])
    && (y.ends[id].loop.Unstarted? ==> y.ends[id].buffer == [])
    && (id in NodeOf(y, n).peers ==> NodeOf(y, n).peers[id].status != Connected && !NodeOf(y, n).peers[id].open)
  }

  lemma NoHelloInTail(ms: seq<Message>)
    requires ms != [] && !HasHello(ms)
    ensures !HasHello(ms[1..]) && !IsHello(ms[0])
  {
    forall i | 0 <= i < |ms| - 1 ensures !IsHello(ms[1..][i]) {
      assert ms[1..][i] == ms[i + 1];
    }
  }

  /** Nothing reaches a closed connection's decoder any more. */
  lemma InertEnd(y: System, step: Step, n: nat, id: string)
    requires Inert(y, n, id)
    ensures var y' := Next(y, step);
            && id in y'.ends && y'.ends[id].node == n && !HelloPending(y'.ends[id])
            && (y'.ends[id].loop.Unstarted? ==> y'.ends[id].buffer == [])
  {
    var e := y.ends[id];
    if step == Read(id) && e.buffer != [] {
      NoHelloInTail(e.buffer);
    }
  }

  lemma InertListing(y: System, step: Step, n: nat, id: string)
    requires Inert(y, n, id) && id in NodeOf(Next(y, step), n).peers
    ensures NodeOf(Next(y, step), n).peers[id].status != Connected && !NodeOf(Next(y, step), n).peers[id].open
  {
    ListedBefore(y, step, n, id);
  }

  lemma {:induction false} InertForever(y: System, steps: seq<Step>, n: nat, id: string)
    requires Inert(y, n, id)
    ensures !ShowsConnected(Run(y, steps), n, id)
    decreases |steps|
  {
    if steps != [] {
      InertEnd(y, steps[0], n, id);
      if id in NodeOf(Next(y, steps[0]), n).peers {
        InertListing(y, steps[0], n, id);
      }
      InertForever(Next(y, steps[0]), steps[1..], n, id);
    }
  }

  lemma RunCons(y: System, step: Step, steps: seq<Step>)
    ensures Run(y, [step] + steps) == Run(Next(y, step), steps)
  {
    assert ([step] + steps)[1..] == steps;
  }

  /** A read loop left to itself handles what it has, up to the handshake. */
  lemma {:induction false} PendingHelloConnects(y: System, n: nat, id: string) returns (steps: seq<Step>)
    requires id in y.ends && y.ends[id].node == n && id in NodeOf(y, n).peers && HelloPending(y.ends[id])
    requires y.ends[id].loop.Reading? || y.ends[id].loop.Handling?
    ensures ShowsConnected(Run(y, steps), n, id)
    decreases |y.ends[id].buffer|, if y.ends[id].loop.Handling? then 1 else 0
  {
    var e := y.ends[id];
    if e.loop.Handling? {
      steps := [];
      if !IsHello(e.loop.msg) {
        steps := PendingHelloConnects(Next(y, Handle(id, false)), n, id);
      }
      RunCons(y, Handle(id, false), steps);
      steps := [Handle(id, false)] + steps;
    } else {
      var i :| 0 <= i < |e.buffer| && IsHello(e.buffer[i]);
      assert i > 0 ==> IsHello(e.buffer[1..][i - 1]);
      steps := PendingHelloConnects(Next(y, Read(id)), n, id);
      RunCons(y, Read(id), steps);
      steps := [Read(id)] + steps;
    }
  }

  /** Whether no continuation ever lists the peer as Connected. */
  ghost predicate NeverConnected(y: System, n: nat, id: string) {
    forall after: seq<Step> :: !ShowsConnected(Run(y, after), n, id)
  }

  lemma PendingIsConnectable(y: System, n: nat, id: string)
    requires id in y.ends && y.ends[id].node == n && id in NodeOf(y, n).peers && EndSound(y, id)
    requires HelloPending(y.ends[id])
    ensures !NeverConnected(y, n, id)
  {
    var after := PendingHelloConnects(y, n, id);
  }

  lemma InertIsNeverConnected(y: System, n: nat, id: string)
    requires Inert(y, n, id)
    ensures NeverConnected(y, n, id)
  {
    forall after: seq<Step> ensures !ShowsConnected(Run(y, after), n, id) {
      InertForever(y, after, n, id);
    }
  }

  lemma StopKeepsEndSound(y: System, n: nat, id: string)
    requires EndSound(y, id) && y.ends[id].node == n && NodeOf(y, n).running && id in NodeOf(y, n).peers
    ensures EndSound(Next(y, Stop(n)), id)
  {
    StopDisconnects(y, n, id);
  }

  /**
   Stop's promise, exactly: a peer listed when the node stops is never again listed as
   Connected, in any continuation, iff its read loop has no valid handshake in hand or
   already read off the connection.
   */
  lemma StopHoldsIff(before: seq<Step>, n: nat, id: string)
    requires NodeOf(Run(NOTHING, before), n).running && id in NodeOf(Run(NOTHING, before), n).peers
    ensures id in Run(NOTHING, before).ends
    ensures NeverConnected(Next(Run(NOTHING, before), Stop(n)), n, id)
            <==> !HelloPending(Run(NOTHING, before).ends[id])
  {
    var y := Run(NOTHING, before);
    RunSound(NOTHING, before);
    assert EndSound(y, id) && y.ends[id].node == n;
    StopDisconnects(y, n, id);
    StopKeepsEndSound(y, n, id);
    if HelloPending(y.ends[id]) {
      PendingIsConnectable(Next(y, Stop(n)), n, id);
    } else {
      InertIsNeverConnected(Next(y, Stop(n)), n, id);
    }
  }

  /** And such a mark lasts no longer than the read loop: while it shows, the loop has not exited. */
  lemma ConnectedMarkEndsWithLoop(before: seq<Step>, after: seq<Step>, n: nat, id: string)
    requires ShowsConnected(Run(Next(Run(NOTHING, before), Stop(n)), after), n, id)
    ensures var z := Run(Next(Run(NOTHING, before), Stop(n)), after);
            id in z.ends && !z.ends[id].loop.Exited?
  {
    var y := Run(NOTHING, before);
    RunSound(NOTHING, before);
    RunCons(y, Stop(n), []);
    RunSound(y, [Stop(n)] + []);
    RunSound(Next(y, Stop(n)), after);
    assert EndSound(Run(Next(y, Stop(n)), after), id);
  }

  // ---------- a run in which Stop's promise fails ----------

  const HELLO := Hello("1.0", 7)

  /** A started node dials a peer, greets it, and has its answer read off the connection. */
  const GREETED: seq<Step> := [Start(0), Register("p", 0, "host", "q", true), Greet("p", HELLO, true),
                               Inject("p", Handshake(Some(HELLO))), Fill("p", 1)]

  lemma GreetedRun()
    ensures var y := Run(NOTHING, GREETED);
            && NodeOf(y, 0) == Node(map["p" := PeerInfo("host", Connecting, "", 0, true)], true)
            && "p" in y.ends && y.ends["p"] == End(0, "q", true, Reading, [Handshake(Some(HELLO))], [])
  {
    var y1 := Next(NOTHING, GREETED[0]);
    var y2 := Next(y1, GREETED[1]);
    var y3 := Next(y2, GREETED[2]);
    var y4 := Next(y3, GREETED[3]);
    assert Wire(y4, "p") == [Handshake(Some(HELLO))];
    RunCons(NOTHING, GREETED[0], GREETED[1..]);
    RunCons(y1, GREETED[1], GREETED[2..]);
    RunCons(y2, GREETED[2], GREETED[3..]);
    RunCons(y3, GREETED[3], GREETED[4..]);
    RunCons(y4, GREETED[4], []);
    assert GREETED == [GREETED[0]] + GREETED[1..] && GREETED[1..] == [GREETED[1]] + GREETED[2..];
    assert GREETED[2..] == [GREETED[2]] + GREETED[3..] && GREETED[3..] == [GREETED[3]] + GREETED[4..];
    assert GREETED[4..] == [GREETED[4]] + [];
  }

  /** Stopped there, the node still comes to list the peer as Connected. */
  lemma StopCanFail()
    ensures var stopped := Next(Run(NOTHING, GREETED), Stop(0));
            && !NeverConnected(stopped, 0, "p")
            && !NodeOf(stopped, 0).running
            && ShowsConnected(Next(Next(stopped, Read("p")), Handle("p", true)), 0, "p")
  {
    var y := Run(NOTHING, GREETED);
    GreetedRun();
    assert IsHello(y.ends["p"].buffer[0]);
    StopHoldsIff(GREETED, 0, "p");
    var y1 := Next(Next(y, Stop(0)), Read("p"));
    assert y1.ends["p"].loop == Handling(Handshake(Some(HELLO)));
  }
}
