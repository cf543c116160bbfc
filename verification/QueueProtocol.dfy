/** The queue and the pipe doorbell of a worker, as interleaved steps of one producer and one consumer.
    Every read or write of a shared pointer or of the atomic size is a step of its own. */
module QueueProtocol {
  import opened Options

  type Message = int
  type Address = nat

  datatype Node = Node(value: Message, next: Option<Address>)

  datatype Token = Quit | RtcMsg

  /** Where the producer stands in SendRtcMsg: before it, before `last = last->next`, before `++size_`,
      at the loop test, before `first = first->next`, before `delete temp`, before the pipe write. */
  datatype Producer = Idle | Swing | CountUp | Test | Advance(temp: Address) | Free(temp: Address) | Ring

  /** Where the consumer stands: waiting for a token, before the emptiness test, before reading the
      value, before moving the divider, before `--size_`, stopped for good. */
  datatype Consumer = Wait | TestEmpty | Take | Move(result: Message) | CountDown | Stopped

  /** `heap` holds the live nodes.  The last line is history the code does not have: the addresses of
      the list in order, what was produced and consumed, and how often a pipe write failed, a token found
      no message, or a dead node was touched. */
  datatype State = State(heap: map<Address, Node>, first: Address, divider: Address, last: Address,
                         size: int, pipe: seq<Token>, producer: Producer, consumer: Consumer,
                         chain: seq<Address>, produced: seq<Message>, consumed: seq<Message>,
                         failedRings: nat, misses: nat, wildAccess: bool)

  datatype Action =
    | Produce(m: Message, address: Address)   // SendRtcMsg begins: last->next = new Node(m)
    | ProducerStep
    | WritePipe(ok: bool)                     // Notify(RTC_MSG), which may fail
    | Stop                                    // Notify(QUIT)
    | ReadPipe                                // the event loop reads a token
    | Poll                                    // a Consume that no token asked for
    | ConsumerStep

  function Start(address: Address): State {
    State(map[address := Node(0, None)], address, address, address, 0, [], Idle, Wait,
          [address], [], [], 0, 0, false)
  }

  function Wild(s: State): State { s.(wildAccess := true) }

  function Link(s: State, m: Message, a: Address): State {
    if s.producer != Idle || a in s.heap then s
    else if s.last !in s.heap then Wild(s)
    else s.(heap := s.heap[a := Node(m, None)][s.last := s.heap[s.last].(next := Some(a))],
            producer := Swing, chain := s.chain + [a], produced := s.produced + [m])
  }

  function StepProducer(s: State): State {
    match s.producer
    case Swing =>
      if s.last !in s.heap || s.heap[s.last].next.None? then Wild(s)
      else s.(last := s.heap[s.last].next.value, producer := CountUp)
    case CountUp => s.(size := s.size + 1, producer := Test)
    case Test => s.(producer := if s.divider != s.first then Advance(s.first) else Ring)
    case Advance(temp) =>
      if s.first !in s.heap || s.heap[s.first].next.None? || s.chain == [] then Wild(s)
      else s.(first := s.heap[s.first].next.value, producer := Free(temp), chain := s.chain[1..])
    case Free(temp) =>
      if temp !in s.heap then Wild(s) else s.(heap := s.heap - {temp}, producer := Test)
    case _ => s
  }

  function StepConsumer(s: State): State {
    match s.consumer
    case TestEmpty =>
      if s.divider != s.last then s.(consumer := Take) else s.(consumer := Wait, misses := s.misses + 1)
    case Take =>
      if s.divider !in s.heap || s.heap[s.divider].next.None? || s.heap[s.divider].next.value !in s.heap
      then Wild(s)
      else s.(consumer := Move(s.heap[s.heap[s.divider].next.value].value))
    case Move(result) =>
      if s.divider !in s.heap || s.heap[s.divider].next.None? then Wild(s)
      else s.(divider := s.heap[s.divider].next.value, consumer := CountDown, consumed := s.consumed + [result])
    case CountDown => s.(size := s.size - 1, consumer := Wait)
    case _ => s
  }

  function Step(s: State, a: Action): State {
    match a
    case Produce(m, address) => Link(s, m, address)
    case ProducerStep => StepProducer(s)
    case WritePipe(ok) =>
      if s.producer != Ring then s
      else if ok then s.(pipe := s.pipe + [RtcMsg], producer := Idle)
      else s.(failedRings := s.failedRings + 1, producer := Idle)
    case Stop => s.(pipe := s.pipe + [Quit])
    case ReadPipe =>
      if s.consumer != Wait || s.pipe == [] then s
      else s.(pipe := s.pipe[1..], consumer := if s.pipe[0].Quit? then Stopped else TestEmpty)
    case Poll => if s.consumer != Wait then s else s.(consumer := TestEmpty)
    case ConsumerStep => StepConsumer(s)
  }

  function Run(address: Address, actions: seq<Action>): State {
    if actions == [] then Start(address)
    else Step(Run(address, actions[..|actions| - 1]), actions[|actions| - 1])
  }

  // ----- the list

  /** Messages linked in but not yet passed by the divider. */
  function Pending(s: State): int { |s.produced| - |s.consumed| }

  /** Position of the divider, and of `last`, in the chain. */
  function DividerAt(s: State): int { |s.chain| - 1 - Pending(s) }

  function LastAt(s: State): int { |s.chain| - if s.producer.Swing? then 2 else 1 }

  function NextIn(chain: seq<Address>, i: nat): Option<Address> {
    if i + 1 < |chain| then Some(chain[i + 1]) else None
  }

  predicate NodeOk(heap: map<Address, Node>, chain: seq<Address>, i: nat)
    requires i < |chain|
  {
    chain[i] in heap && heap[chain[i]].next == NextIn(chain, i)
  }

  predicate Distinct(chain: seq<Address>) {
    forall i, j :: 0 <= i < j < |chain| ==> chain[i] != chain[j]
  }

  /** The chain is a null-terminated list of live nodes. */
  predicate Linked(heap: map<Address, Node>, chain: seq<Address>) {
    Distinct(chain) && forall i :: 0 <= i < |chain| ==> NodeOk(heap, chain, i)
  }

  ghost predicate ListOk(s: State) {
    && !s.wildAccess && Linked(s.heap, s.chain)
    && 0 <= DividerAt(s) <= LastAt(s) < |s.chain| && 0 <= Pending(s)
    && s.first == s.chain[0] && s.divider == s.chain[DividerAt(s)] && s.last == s.chain[LastAt(s)]
    && (s.producer.Advance? ==> s.producer.temp == s.first && DividerAt(s) > 0)
    && (s.producer.Free? ==> s.producer.temp in s.heap && s.producer.temp !in s.chain)
    && forall a :: a in s.heap ==> a in s.chain || s.producer == Free(a)
  }

  /** The node at position `j` carries the message of its rank. */
  predicate Carries(heap: map<Address, Node>, chain: seq<Address>, produced: seq<Message>, j: nat) {
    j < |chain| && chain[j] in heap && 0 <= |produced| - |chain| + j &&
    heap[chain[j]].value == produced[|produced| - |chain| + j]
  }

  ghost predicate ValuesOk(s: State) {
    && s.consumed <= s.produced
    && (forall j :: DividerAt(s) < j < |s.chain| && 0 <= j ==> Carries(s.heap, s.chain, s.produced, j))
    && (s.consumer.Take? || s.consumer.Move? ==> DividerAt(s) < LastAt(s))
    && (s.consumer.Move? ==> |s.consumed| < |s.produced| && s.consumer.result == s.produced[|s.consumed|])
  }

  predicate SizeOk(s: State) {
    s.size == Pending(s) - (if s.producer.Swing? || s.producer.CountUp? then 1 else 0)
                         + (if s.consumer.CountDown? then 1 else 0)
  }

  ghost predicate QueueOk(s: State) {
    ListOk(s) && ValuesOk(s) && SizeOk(s)
  }

  /** A fresh node linked behind the last one. */
  lemma LinkedGrows(heap: map<Address, Node>, chain: seq<Address>, m: Message, a: Address)
    requires Linked(heap, chain) && chain != [] && a !in heap
    ensures var last := chain[|chain| - 1];
            last in heap && heap[last].next == None &&
            Linked(heap[a := Node(m, None)][last := heap[last].(next := Some(a))], chain + [a])
  {
    var n := |chain|;
    assert NodeOk(heap, chain, n - 1);
    forall i | 0 <= i < n ensures chain[i] in heap && chain[i] != a { assert NodeOk(heap, chain, i); }
    var heap' := heap[a := Node(m, None)][chain[n - 1] := heap[chain[n - 1]].(next := Some(a))];
    forall i | 0 <= i < n + 1 ensures NodeOk(heap', chain + [a], i) {
      if i < n { assert NodeOk(heap, chain, i); }
    }
  }

  lemma LinkOk(s: State, m: Message, a: Address)
    requires QueueOk(s)
    ensures QueueOk(Link(s, m, a))
  {
    if s.producer == Idle && a !in s.heap {
      var s' := Link(s, m, a);
      var n := |s.chain|;
      LinkedGrows(s.heap, s.chain, m, a);
      forall j | DividerAt(s') < j < n + 1 && 0 <= j ensures Carries(s'.heap, s'.chain, s'.produced, j) {
        if j < n { assert Carries(s.heap, s.chain, s.produced, j); }
      }
    }
  }

  lemma SwingOk(s: State)
    requires QueueOk(s) && s.producer.Swing?
    ensures QueueOk(StepProducer(s))
  {
    assert NodeOk(s.heap, s.chain, LastAt(s));
  }

  lemma DropHead(heap: map<Address, Node>, chain: seq<Address>)
    requires Linked(heap, chain) && |chain| > 1
    ensures Linked(heap, chain[1..]) && chain[0] !in chain[1..]
    ensures chain[0] in heap && heap[chain[0]].next == Some(chain[1])
  {
    assert NodeOk(heap, chain, 0);
    forall i | 0 <= i < |chain| - 1 ensures NodeOk(heap, chain[1..], i) && chain[1..][i] != chain[0] {
      assert NodeOk(heap, chain, i + 1);
    }
  }

  lemma AdvanceListOk(s: State)
    requires ListOk(s) && s.producer.Advance?
    ensures ListOk(StepProducer(s))
  {
    DropHead(s.heap, s.chain);
    assert s.chain == [s.chain[0]] + s.chain[1..];
  }

  lemma AdvanceOk(s: State)
    requires QueueOk(s) && s.producer.Advance?
    ensures QueueOk(StepProducer(s))
  {
    var s' := StepProducer(s);
    AdvanceListOk(s);
    forall j | DividerAt(s') < j < |s'.chain| && 0 <= j ensures Carries(s'.heap, s'.chain, s'.produced, j) {
      assert Carries(s.heap, s.chain, s.produced, j + 1);
    }
  }

  lemma FreeOk(s: State)
    requires QueueOk(s) && s.producer.Free?
    ensures QueueOk(StepProducer(s))
  {
    var s' := StepProducer(s);
    forall i | 0 <= i < |s.chain| ensures NodeOk(s'.heap, s.chain, i) {
      assert NodeOk(s.heap, s.chain, i) && s.chain[i] != s.producer.temp;
    }
    forall j | DividerAt(s) < j < |s.chain| && 0 <= j ensures Carries(s'.heap, s.chain, s.produced, j) {
      assert Carries(s.heap, s.chain, s.produced, j) && s.chain[j] != s.producer.temp;
    }
  }

  lemma ProducerOk(s: State)
    requires QueueOk(s)
    ensures QueueOk(StepProducer(s))
  {
    match s.producer
    case Swing => SwingOk(s);
    case Advance(_) => AdvanceOk(s);
    case Free(_) => FreeOk(s);
    case Test => assert s.divider != s.first ==> DividerAt(s) > 0;
    case _ =>
  }

  lemma TakeOk(s: State)
    requires QueueOk(s) && s.consumer.Take?
    ensures QueueOk(StepConsumer(s))
  {
    var d := DividerAt(s);
    assert NodeOk(s.heap, s.chain, d) && NodeOk(s.heap, s.chain, d + 1);
    assert Carries(s.heap, s.chain, s.produced, d + 1);
  }

  lemma MoveOk(s: State)
    requires QueueOk(s) && s.consumer.Move?
    ensures QueueOk(StepConsumer(s))
  {
    assert NodeOk(s.heap, s.chain, DividerAt(s));
  }

  lemma ConsumerOk(s: State)
    requires QueueOk(s)
    ensures QueueOk(StepConsumer(s))
  {
    match s.consumer
    case Take => TakeOk(s);
    case Move(_) => MoveOk(s);
    case TestEmpty => assert s.divider != s.last ==> DividerAt(s) < LastAt(s);
    case _ =>
  }

  lemma StepOk(s: State, a: Action)
    requires QueueOk(s)
    ensures QueueOk(Step(s, a))
  {
    match a
    case Produce(m, address) => LinkOk(s, m, address);
    case ProducerStep => ProducerOk(s);
    case ConsumerStep => ConsumerOk(s);
    case _ =>
  }

  lemma {:induction false} RunOk(address: Address, actions: seq<Action>)
    ensures QueueOk(Run(address, actions))
  {
    if actions != [] {
      RunOk(address, actions[..|actions| - 1]);
      StepOk(Run(address, actions[..|actions| - 1]), actions[|actions| - 1]);
    }
  }

  /** First in, first out, under every interleaving: what was consumed is a prefix of what was produced,
      no dead node is ever touched, the producer never frees past the divider, and the size is the number
      of pending messages up to the two increments in flight. */
  lemma FirstInFirstOut(address: Address, actions: seq<Action>)
    ensures var s := Run(address, actions);
            s.consumed <= s.produced && !s.wildAccess && SizeOk(s) &&
            s.chain != [] && s.first == s.chain[0] && s.divider in s.chain &&
            (forall a :: a in s.chain ==> a in s.heap) &&
            (forall a :: a in s.heap ==> a in s.chain || s.producer == Free(a))
  {
    RunOk(address, actions);
    var s := Run(address, actions);
    forall a | a in s.chain ensures a in s.heap {
      var i :| 0 <= i < |s.chain| && s.chain[i] == a;
      assert NodeOk(s.heap, s.chain, i);
    }
  }

  // ----- the doorbell

  function Messages(pipe: seq<Token>): nat {
    if pipe == [] then 0
    else Messages(pipe[..|pipe| - 1]) + if pipe[|pipe| - 1].RtcMsg? then 1 else 0
  }

  /** The producer has linked a message it has not rung for yet. */
  function Unrung(s: State): nat { if s.producer.Idle? then 0 else 1 }

  /** The consumer has read a token whose message it has not passed yet. */
  function Answering(s: State): nat {
    if s.consumer.TestEmpty? || s.consumer.Take? || s.consumer.Move? then 1 else 0
  }

  predicate BellOk(s: State) {
    s.misses == 0 && Pending(s) == Messages(s.pipe) + Unrung(s) + Answering(s) + s.failedRings
  }

  predicate NoPoll(actions: seq<Action>) {
    forall i :: 0 <= i < |actions| ==> !actions[i].Poll?
  }

  lemma MessagesAppend(pipe: seq<Token>, t: Token)
    ensures Messages(pipe + [t]) == Messages(pipe) + if t.RtcMsg? then 1 else 0
  {
    assert (pipe + [t])[..|pipe|] == pipe;
  }

  lemma {:induction false} MessagesFirst(pipe: seq<Token>)
    requires pipe != []
    ensures Messages(pipe) == Messages(pipe[1..]) + if pipe[0].RtcMsg? then 1 else 0
  {
    if |pipe| > 1 {
      MessagesFirst(pipe[..|pipe| - 1]);
      assert pipe[1..][..|pipe| - 2] == pipe[..|pipe| - 1][1..];
    }
  }

  lemma BellConsumer(s: State)
    requires QueueOk(s) && BellOk(s)
    ensures BellOk(StepConsumer(s))
  {
    if s.consumer.TestEmpty? {
      assert DividerAt(s) < LastAt(s);
      assert s.chain[DividerAt(s)] != s.chain[LastAt(s)];
    } else if s.consumer.Take? {
      TakeOk(s);
    } else if s.consumer.Move? {
      MoveOk(s);
    }
  }

  lemma BellProducer(s: State)
    requires QueueOk(s) && BellOk(s)
    ensures BellOk(StepProducer(s))
  {
    ProducerOk(s);
  }

  lemma BellPipe(s: State, a: Action)
    requires QueueOk(s) && BellOk(s) && (a.WritePipe? || a.Stop? || a.ReadPipe?)
    ensures BellOk(Step(s, a))
  {
    match a
    case WritePipe(_) => MessagesAppend(s.pipe, RtcMsg);
    case Stop => MessagesAppend(s.pipe, Quit);
    case ReadPipe => if s.pipe != [] { MessagesFirst(s.pipe); }
  }

  lemma BellStep(s: State, a: Action)
    requires QueueOk(s) && BellOk(s) && !a.Poll?
    ensures BellOk(Step(s, a))
  {
    match a
    case ConsumerStep => BellConsumer(s);
    case ProducerStep => BellProducer(s);
    case WritePipe(_) => BellPipe(s, a);
    case Stop => BellPipe(s, a);
    case ReadPipe => BellPipe(s, a);
    case _ =>
  }

  lemma {:induction false} BellRun(address: Address, actions: seq<Action>)
    requires NoPoll(actions)
    ensures BellOk(Run(address, actions))
  {
    if actions != [] {
      var k := |actions| - 1;
      BellRun(address, actions[..k]);
      RunOk(address, actions[..k]);
      BellStep(Run(address, actions[..k]), actions[k]);
    }
  }

  /** When every Consume answers a token: each token finds a message, and once the pipe is drained and
      both sides are at rest the messages left are as many as pipe writes failed; with none failed the
      queue is empty and everything produced was consumed. */
  lemma EveryTokenFindsAMessage(address: Address, actions: seq<Action>)
    requires NoPoll(actions)
    ensures var s := Run(address, actions);
            s.misses == 0 &&
            (Messages(s.pipe) == 0 && s.producer.Idle? && (s.consumer.Wait? || s.consumer.Stopped?) ==>
              |s.produced| - |s.consumed| == s.failedRings && s.size == s.failedRings &&
              (s.failedRings == 0 ==> s.consumed == s.produced))
  {
    BellRun(address, actions);
    RunOk(address, actions);
  }
}
