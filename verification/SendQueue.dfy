/** websocket_client.c: the outbound frame queue, a linked list with head and tail pointers, and the
    flags it depends on. libwebsockets appears as the events it delivers and as the pending request
    for a writable callback. */
module SendQueue {
  import opened CStrings

  /** The client as a value: its flags, the frames waiting, and whether a writable callback is pending. */
  datatype Queue = Queue(connected: bool, live: bool, frames: seq<string>, requested: bool)

  datatype Op =
    | Send(message: string, memory: bool)
    | Dial(accepted: bool)
    | Established
    | Writeable
    | ConnectionError
    | Closed
    | Disconnect

  /** A message is accepted when the socket is connected and memory is available. */
  predicate Accepts(q: Queue, op: Op) {
    op.Send? && q.connected && op.memory
  }

  function Step(q: Queue, op: Op): Queue {
    match op
    case Send(message, _) =>
      if Accepts(q, op) then q.(frames := q.frames + [message], requested := q.requested || q.live) else q
    case Dial(accepted) => q.(live := accepted)
    case Established => q.(connected := true)
    case Writeable =>
      if q.frames == [] then q.(requested := false)
      else q.(frames := q.frames[1..], requested := |q.frames| > 1)
    case ConnectionError => q.(connected := false)
    case Closed => q.(connected := false, live := false)
    case Disconnect => q.(connected := false)
  }

  class Node {
    var data: string
    var next: Node?

    constructor (data: string)
      ensures this.data == data && next == null
    {
      this.data := data;
      next := null;
    }
  }

  class WebSocketClient {
    var connected: bool
    var wsi: bool          // a live libwebsockets handle
    var sendHead: Node?
    var sendTail: Node?
    var requested: bool    // lws_callback_on_writable was called and not yet answered
    ghost var nodes: seq<Node>

    /** The list is well formed: the links run through `nodes`, head is its first node, tail its last. */
    ghost predicate Valid()
      reads this, nodes
    {
      (forall i, j :: 0 <= i < j < |nodes| ==> nodes[i] != nodes[j]) &&
      (forall i {:trigger nodes[i].next} :: 0 <= i < |nodes| - 1 ==> nodes[i].next == nodes[i + 1]) &&
      (if nodes == [] then sendHead == null && sendTail == null
       else sendHead == nodes[0] && sendTail == nodes[|nodes| - 1] && nodes[|nodes| - 1].next == null)
    }

    ghost function Contents(): (r: seq<string>)
      reads this, nodes
      ensures |r| == |nodes| && forall i :: 0 <= i < |r| ==> r[i] == nodes[i].data
    {
      seq(|nodes|, i requires 0 <= i < |nodes| reads this, nodes => nodes[i].data)
    }

    ghost function Abs(): Queue
      reads this, nodes
    {
      Queue(connected, wsi, Contents(), requested)
    }

    constructor ()
      ensures Valid() && Abs() == Queue(false, false, [], false) && nodes == []
    {
      connected, wsi, requested := false, false, false;
      sendHead, sendTail := null, null;
      nodes := [];
    }

    /** `websocket_client_send`; `memory` says whether both allocations succeed. */
    method Send(message: string, memory: bool) returns (result: int)
      requires Valid()
      modifies this, nodes
      ensures Valid() && Abs() == Step(old(Abs()), Op.Send(message, memory))
      ensures result == (if old(connected) && memory then 0 else -1)
      ensures Contents() == if old(connected) && memory then old(Contents()) + [message] else old(Contents())
      ensures requested == (old(requested) || (wsi && old(connected) && memory))
      ensures connected == old(connected) && wsi == old(wsi)
      ensures old(nodes) <= nodes && fresh(nodes[|old(nodes)|..])
    {
      if !connected { return -1; }
      if !memory { return -1; }
      Enqueue(message);
      if wsi { requested := true; }
      return 0;
    }

    method Enqueue(message: string)
      requires Valid()
      modifies this`sendHead, this`sendTail, this`nodes, nodes
      ensures Valid() && Contents() == old(Contents()) + [message]
      ensures old(nodes) <= nodes && fresh(nodes[|old(nodes)|..])
    {
      var node := new Node(message);
      Append(node);
    }

    /** The link to the tail. */
    method Append(node: Node)
      requires Valid() && node !in nodes && node.next == null
      modifies this`sendHead, this`sendTail, this`nodes, nodes
      ensures Valid() && nodes == old(nodes) + [node]
      ensures Contents() == old(Contents()) + [old(node.data)]
    {
      if sendTail != null {
        sendTail.next := node;
        sendTail := node;
      } else {
        sendHead, sendTail := node, node;
      }
      nodes := nodes + [node];
    }

    /** The WRITEABLE callback: exactly one frame leaves; if more remain, another callback is requested.
        The frame is what is written; an empty one leaves without a write. */
    method OnWriteable() returns (frame: Option<string>)
      requires Valid()
      modifies this`sendHead, this`sendTail, this`nodes, this`requested
      ensures Valid() && Abs() == Step(old(Abs()), Writeable)
      ensures frame == if old(Contents()) == [] || old(Contents())[0] == "" then None else Some(old(Contents())[0])
      ensures nodes == if old(nodes) == [] then [] else old(nodes)[1..]
      ensures Contents() == if old(Contents()) == [] then [] else old(Contents())[1..]
      ensures requested == (Contents() != [])
    {
      var data := Pop();
      if data.None? || |data.value| == 0 { frame := None; } else { frame := data; }
      var more := sendHead != null;
      requested := more;
    }

    /** Unlinking the head. */
    method Pop() returns (data: Option<string>)
      requires Valid()
      modifies this`sendHead, this`sendTail, this`nodes
      ensures Valid() && (sendHead != null <==> Contents() != [])
      ensures nodes == if old(nodes) == [] then [] else old(nodes)[1..]
      ensures Contents() == if old(Contents()) == [] then [] else old(Contents())[1..]
      ensures data == if old(Contents()) == [] then None else Some(old(Contents())[0])
    {
      var node := sendHead;
      if node == null { return None; }
      data := Some(node.data);
      sendHead := node.next;
      if sendHead == null { sendTail := null; }
      assert sendHead == null <==> |nodes| == 1;
      nodes := nodes[1..];
    }

    method OnEstablished()
      requires Valid()
      modifies this`connected
      ensures Valid() && Abs() == Step(old(Abs()), Established)
      ensures connected
    {
      connected := true;
    }

    method OnConnectionError()
      requires Valid()
      modifies this`connected
      ensures Valid() && Abs() == Step(old(Abs()), ConnectionError)
      ensures !connected
    {
      connected := false;
    }

    method OnClosed()
      requires Valid()
      modifies this`connected, this`wsi
      ensures Valid() && Abs() == Step(old(Abs()), Closed)
      ensures !connected && !wsi
    {
      connected := false;
      wsi := false;
    }

    method Disconnect()
      requires Valid()
      modifies this`connected
      ensures Valid() && Abs() == Step(old(Abs()), Op.Disconnect)
      ensures !connected
    {
      connected := false;
    }

    /** `websocket_client_connect`; `accepted` is whether libwebsockets hands back a handle. */
    method Connect(accepted: bool) returns (result: int)
      requires Valid()
      modifies this`wsi
      ensures Valid() && Abs() == Step(old(Abs()), Dial(accepted))
      ensures wsi == accepted && result == (if accepted then 0 else -1)
    {
      wsi := accepted;
      if !wsi { return -1; }
      return 0;
    }

    /** The teardown frees every queued node, each of them once, and nothing else. */
    method Destroy() returns (ghost freed: seq<Node>)
      requires Valid()
      modifies this
      ensures freed == old(nodes) && sendHead == null && sendTail == null && nodes == [] && Valid()
    {
      Disconnect();
      freed := [];
      var node := sendHead;
      ghost var i := 0;
      while node != null
        invariant 0 <= i <= |nodes| && nodes == old(nodes) && freed == nodes[..i] && Valid()
        invariant node == if i < |nodes| then nodes[i] else null
        decreases |nodes| - i
      {
        var next := node.next;
        freed := freed + [node];
        node := next;
        i := i + 1;
      }
      sendHead, sendTail := null, null;
      nodes := [];
    }
  }

  // ---------------------------------------------------------------- every interleaving

  function Run(q: Queue, ops: seq<Op>): Queue
    decreases |ops|
  {
    if ops == [] then q else Run(Step(q, ops[0]), ops[1..])
  }

  /** The messages accepted along a run, in order. */
  function Accepted(q: Queue, ops: seq<Op>): seq<string>
    decreases |ops|
  {
    if ops == [] then []
    else (if Accepts(q, ops[0]) then [ops[0].message] else []) + Accepted(Step(q, ops[0]), ops[1..])
  }

  /** The frames that leave along a run, in order. */
  function Drained(q: Queue, ops: seq<Op>): seq<string>
    decreases |ops|
  {
    if ops == [] then []
    else (if ops[0].Writeable? && q.frames != [] then [q.frames[0]] else []) + Drained(Step(q, ops[0]), ops[1..])
  }

  /** Frames leave in the order they were accepted: none is lost, duplicated, reordered or overwritten. */
  lemma {:induction false} FirstInFirstOut(q: Queue, ops: seq<Op>)
    ensures q.frames + Accepted(q, ops) == Drained(q, ops) + Run(q, ops).frames
    decreases |ops|
  {
    if ops != [] {
      var q' := Step(q, ops[0]);
      OneStepInOrder(q, ops[0]);
      FirstInFirstOut(q', ops[1..]);
      var came := if Accepts(q, ops[0]) then [ops[0].message] else [];
      var left := if ops[0].Writeable? && q.frames != [] then [q.frames[0]] else [];
      Regroup(q.frames, came, Accepted(q', ops[1..]), left, q'.frames, Drained(q', ops[1..]), Run(q', ops[1..]).frames);
      hide Step, Accepts;
    }
  }

  lemma Regroup(frames: seq<string>, came: seq<string>, a: seq<string>, left: seq<string>, frames': seq<string>,
                d: seq<string>, end: seq<string>)
    requires frames + came == left + frames' && frames' + a == d + end
    ensures frames + (came + a) == (left + d) + end
  {
    assert frames + (came + a) == (frames + came) + a;
    assert (left + frames') + a == left + (frames' + a);
  }

  lemma OneStepInOrder(q: Queue, op: Op)
    ensures q.frames + (if Accepts(q, op) then [op.message] else []) ==
            (if op.Writeable? && q.frames != [] then [q.frames[0]] else []) + Step(q, op).frames
  {
  }

  /** On a connected socket with memory every message is accepted, however many wait already: a run of
      sends leaves the old frames and then all the messages, in order. */
  lemma {:induction false} SendsAreKept(q: Queue, messages: seq<string>)
    requires q.connected
    ensures var r := Run(q, seq(|messages|, i requires 0 <= i < |messages| => Send(messages[i], true)));
            r.frames == q.frames + messages && r.connected && r.live == q.live
    decreases |messages|
  {
    var ops := seq(|messages|, i requires 0 <= i < |messages| => Send(messages[i], true));
    if messages != [] {
      var rest := messages[1..];
      assert ops[1..] == seq(|rest|, i requires 0 <= i < |rest| => Send(rest[i], true));
      SendsAreKept(Step(q, ops[0]), rest);
      assert q.frames + messages == (q.frames + [messages[0]]) + rest;
    }
  }

  /** On any other, none is. */
  lemma {:induction false} RefusedSendsLeaveNoTrace(q: Queue, ops: seq<Op>)
    requires !q.connected && forall i :: 0 <= i < |ops| ==> ops[i].Send?
    ensures Run(q, ops) == q
    decreases |ops|
  {
    if ops != [] { RefusedSendsLeaveNoTrace(q, ops[1..]); }
  }

  /** No frame is stuck: while frames wait on a live socket, a writable callback is pending. A socket is
      connected only while it has a handle, and only a connected one has ever queued anything. */
  predicate NoStuckFrame(q: Queue) {
    (q.live && q.frames != [] ==> q.requested) && (q.connected ==> q.live)
  }

  /** The order libwebsockets keeps: a handle is asked for once, before anything else; the connection
      is established on a handle. */
  predicate Follows(q: Queue, op: Op) {
    match op
    case Dial(_) => !q.live && q.frames == [] && !q.connected
    case Established => q.live
    case _ => true
  }

  ghost predicate Legal(q: Queue, ops: seq<Op>)
    decreases |ops|
  {
    ops != [] ==> Follows(q, ops[0]) && Legal(Step(q, ops[0]), ops[1..])
  }

  lemma {:induction false} NeverStuck(q: Queue, ops: seq<Op>)
    requires NoStuckFrame(q) && Legal(q, ops)
    ensures NoStuckFrame(Run(q, ops))
    decreases |ops|
  {
    if ops != [] { NeverStuck(Step(q, ops[0]), ops[1..]); }
  }

  /** As many writable callbacks as frames wait empty the queue, in order; each but the last asks for the next. */
  lemma {:induction false} CallbacksFlush(q: Queue, ops: seq<Op>)
    requires |ops| == |q.frames| && forall i :: 0 <= i < |ops| ==> ops[i] == Writeable
    ensures Drained(q, ops) == q.frames && Run(q, ops).frames == []
    ensures forall k :: 0 < k < |ops| ==> Run(q, ops[..k]).requested
    decreases |ops|
  {
    if ops != [] {
      var q' := Step(q, Writeable);
      CallbacksFlush(q', ops[1..]);
      forall k | 0 < k < |ops| ensures Run(q, ops[..k]).requested {
        assert ops[..k][1..] == ops[1..][..k - 1];
        if k == 1 { assert Run(q', ops[1..][..0]) == q'; }
      }
    }
  }
}
