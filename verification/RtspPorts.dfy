/** The RTP and RTCP ports that an RTSP stream gives to its connections, one block of four for each. */
module RtspPorts {
  const FIRST_PORT: nat := 42222
  const PORT_MODULUS: nat := 0x1_0000

  /** Connections are known by a reference; which kind of track is attached matters only by its presence. */
  type reference = nat

  datatype Kind = Audio | Video | Other

  datatype Connection = Connection(port: nat, audio: bool, video: bool)

  /** The base port of the `i`-th connection, as a 16-bit number. */
  function Port(i: nat): (p: nat)
    ensures p < PORT_MODULUS
  {
    (FIRST_PORT + i * 4) % PORT_MODULUS
  }

  /** The ports of a block, wrapping around. */
  function Block(port: nat): set<nat> {
    {port, (port + 1) % PORT_MODULUS, (port + 2) % PORT_MODULUS, (port + 3) % PORT_MODULUS}
  }

  // --- Operations ---------------------------------------------------------------------------

  /** `numbers` remembers the allocation number of every live connection. */
  datatype State = State(connections: map<reference, Connection>, counter: nat, numbers: map<reference, nat>)

  const NO_CONNECTIONS: State := State(map[], 0, map[])

  function Attach(c: Connection, kind: Kind): Connection {
    match kind
    case Audio => c.(audio := true)
    case Video => c.(video := true)
    case Other => c
  }

  function Add(s: State, ref: reference, kind: Kind): State {
    if ref in s.connections then s.(connections := s.connections[ref := Attach(s.connections[ref], kind)])
    else
      State(s.connections[ref := Attach(Connection(Port(s.counter), false, false), kind)], s.counter + 1,
            s.numbers[ref := s.counter])
  }

  function Remove(s: State, ref: reference): State {
    s.(connections := s.connections - {ref}, numbers := s.numbers - {ref})
  }

  class RtspStream {
    var connections: map<reference, Connection>
    var counter: nat
    ghost var numbers: map<reference, nat>

    ghost function Value(): State
      reads this
    {
      State(connections, counter, numbers)
    }

    constructor ()
      ensures Value() == NO_CONNECTIONS
    {
      connections, counter, numbers := map[], 0, map[];
    }

    method AddConnection(ref: reference, kind: Kind)
      modifies this
      ensures Value() == Add(old(Value()), ref, kind)
    {
      if ref !in connections {
        connections := connections[ref := Connection(Port(counter), false, false)];
        numbers := numbers[ref := counter];
        counter := counter + 1;
      }
      var conn := connections[ref];
      if kind == Audio {
        conn := conn.(audio := true);
      } else if kind == Video {
        conn := conn.(video := true);
      }
      connections := connections[ref := conn];
    }

    method RemoveConnection(ref: reference)
      modifies this
      ensures Value() == Remove(old(Value()), ref)
    {
      connections := connections - {ref};
      numbers := numbers - {ref};
    }
  }

  // --- Blocks -------------------------------------------------------------------------------

  lemma WholeTurns(n: nat, q: nat)
    ensures (n + q * PORT_MODULUS) % PORT_MODULUS == n % PORT_MODULUS
  {
  }

  lemma PortIs(i: nat)
    ensures Port(i) == (FIRST_PORT + i % 16384 * 4) % PORT_MODULUS
    ensures Port(i) % 4 == 2
  {
    var q, r := i / 16384, i % 16384;
    assert FIRST_PORT + i * 4 == (FIRST_PORT + r * 4) + q * PORT_MODULUS;
    WholeTurns(FIRST_PORT + r * 4, q);
  }

  /** A block wraps around exactly for the allocations 5828, 5828 + 16384, and so on. */
  lemma BlockWrapsIff(i: nat)
    ensures Port(i) + 3 >= PORT_MODULUS <==> i % 16384 == 5828
  {
    PortIs(i);
  }

  lemma PortsDifferIff(i: nat, j: nat)
    ensures Port(i) == Port(j) <==> i % 16384 == j % 16384
  {
    PortIs(i);
    PortIs(j);
  }

  /** The number of the aligned block that a port lies in, counted from port 65534. */
  function Slot(x: nat): nat {
    (x + 2) % PORT_MODULUS / 4
  }

  lemma SlotOfPort(p: nat, d: nat)
    requires p < PORT_MODULUS && p % 4 == 2 && d < 4
    ensures Slot((p + d) % PORT_MODULUS) == Slot(p)
  {
    var b := (p + 2) % PORT_MODULUS;
    assert b % 4 == 0 && b + d < PORT_MODULUS;
    assert ((p + d) % PORT_MODULUS + 2) % PORT_MODULUS == b + d;
  }

  lemma SlotOfBlock(p: nat)
    requires p < PORT_MODULUS && p % 4 == 2
    ensures forall x :: x in Block(p) ==> Slot(x) == Slot(p)
  {
    SlotOfPort(p, 1);
    SlotOfPort(p, 2);
    SlotOfPort(p, 3);
  }

  lemma SlotsDiffer(p: nat, q: nat)
    requires p < PORT_MODULUS && q < PORT_MODULUS && p % 4 == 2 && q % 4 == 2 && p != q
    ensures Slot(p) != Slot(q)
  {
  }

  /** Blocks are aligned, so that different ones do not overlap, even around the wrap. */
  lemma AlignedBlocks(p: nat, q: nat)
    requires p < PORT_MODULUS && q < PORT_MODULUS && p % 4 == 2 && q % 4 == 2 && p != q
    ensures Block(p) !! Block(q)
  {
    SlotOfBlock(p);
    SlotOfBlock(q);
    SlotsDiffer(p, q);
  }

  /** Two blocks are disjoint unless they are the same, which is when the numbers agree modulo 16384. */
  lemma BlocksDisjointIff(i: nat, j: nat)
    ensures Block(Port(i)) !! Block(Port(j)) <==> i % 16384 != j % 16384
  {
    PortIs(i);
    PortIs(j);
    PortsDifferIff(i, j);
    if Port(i) != Port(j) {
      AlignedBlocks(Port(i), Port(j));
    } else {
      assert Port(i) in Block(Port(i));
    }
  }

  // --- Runs ---------------------------------------------------------------------------------

  datatype Call = AddCall(ref: reference, kind: Kind) | RemoveCall(ref: reference)

  function Perform(s: State, c: Call): State {
    match c
    case AddCall(ref, kind) => Add(s, ref, kind)
    case RemoveCall(ref) => Remove(s, ref)
  }

  function Run(s: State, calls: seq<Call>): State
    decreases |calls|
  {
    if calls == [] then s else Run(Perform(s, calls[0]), calls[1..])
  }

  /** Live connections have numbers of their own, below the counter, and the ports that go with them. */
  ghost predicate Inv(s: State) {
    && s.numbers.Keys == s.connections.Keys
    && (forall r :: r in s.numbers ==> s.numbers[r] < s.counter && s.connections[r].port == Port(s.numbers[r]))
    && (forall r, t :: r in s.numbers && t in s.numbers && r != t ==> s.numbers[r] != s.numbers[t])
  }

  lemma AddKeeps(s: State, ref: reference, kind: Kind)
    requires Inv(s)
    ensures Inv(Add(s, ref, kind))
  {
    var t := Add(s, ref, kind);
    forall r | r in t.numbers
      ensures r in t.connections && t.numbers[r] < t.counter && t.connections[r].port == Port(t.numbers[r])
    {
      if r != ref {
        assert r in s.numbers;
      }
    }
  }

  lemma RemoveKeeps(s: State, ref: reference)
    requires Inv(s)
    ensures Inv(Remove(s, ref))
  {
    var t := Remove(s, ref);
    assert t.numbers.Keys == s.numbers.Keys - {ref};
    assert t.connections.Keys == s.connections.Keys - {ref};
  }

  lemma {:induction false} InvHolds(s: State, calls: seq<Call>)
    requires Inv(s)
    ensures Inv(Run(s, calls))
    decreases |calls|
  {
    if calls != [] {
      match calls[0] {
        case AddCall(ref, kind) => AddKeeps(s, ref, kind);
        case RemoveCall(ref) => RemoveKeeps(s, ref);
      }
      InvHolds(Perform(s, calls[0]), calls[1..]);
    }
  }

  /**
   Over every run: a live connection has the port of its allocation number, and two of them have disjoint
   blocks unless their numbers differ by a multiple of 16384.
   */
  lemma LiveBlocksDisjoint(calls: seq<Call>, r: reference, t: reference)
    requires var s := Run(NO_CONNECTIONS, calls); r in s.connections && t in s.connections
    ensures var s := Run(NO_CONNECTIONS, calls);
            && r in s.numbers && s.numbers[r] < s.counter && s.connections[r].port == Port(s.numbers[r])
            && t in s.numbers
            && (r != t ==>
                  && s.numbers[r] != s.numbers[t]
                  && (Block(s.connections[r].port) !! Block(s.connections[t].port)
                      <==> s.numbers[r] % 16384 != s.numbers[t] % 16384))
  {
    InvHolds(NO_CONNECTIONS, calls);
    var s := Run(NO_CONNECTIONS, calls);
    BlocksDisjointIff(s.numbers[r], s.numbers[t]);
  }

  /** One call leaves a connection that it does not remove its number, and changes at most one of its tracks. */
  lemma StepKeeps(s: State, c: Call, r: reference)
    requires Inv(s) && r in s.connections && c != RemoveCall(r)
    ensures var t := Perform(s, c);
            && Inv(t) && r in t.connections && t.numbers[r] == s.numbers[r]
            && t.connections[r] == if c.AddCall? && c.ref == r then Attach(s.connections[r], c.kind)
                                   else s.connections[r]
  {
    match c
    case AddCall(ref, kind) => AddKeeps(s, ref, kind);
    case RemoveCall(ref) => RemoveKeeps(s, ref);
  }

  predicate Has(c: Connection, kind: Kind) {
    match kind
    case Audio => c.audio
    case Video => c.video
    case Other => false
  }

  /**
   Audio and video of one connection share its block: until it is removed a live connection keeps its
   number and its port whatever is added, and has exactly the tracks that were added to it.
   */
  lemma {:induction false} TracksShareBlock(s: State, calls: seq<Call>, r: reference, kind: Kind)
    requires Inv(s) && r in s.connections && RemoveCall(r) !in calls && kind != Other
    ensures var t := Run(s, calls);
            && Inv(t) && r in t.connections && t.numbers[r] == s.numbers[r]
            && t.connections[r].port == s.connections[r].port == Port(s.numbers[r])
            && (Has(t.connections[r], kind) <==> Has(s.connections[r], kind) || AddCall(r, kind) in calls)
    decreases |calls|
  {
    if calls != [] {
      var c := calls[0];
      assert calls == [c] + calls[1..];
      StepKeeps(s, c, r);
      TracksShareBlock(Perform(s, c), calls[1..], r, kind);
    }
  }

  // --- What the calls decide ----------------------------------------------------------------

  /** A connection of `r` has been added and not removed since. */
  predicate Live(calls: seq<Call>, r: reference)
    decreases |calls|
  {
    calls != [] &&
      var c := calls[|calls| - 1];
      if c.ref == r then c.AddCall? else Live(calls[..|calls| - 1], r)
  }

  /** A track of this kind has been added to `r` and `r` has not been removed since. */
  predicate Added(calls: seq<Call>, r: reference, kind: Kind)
    decreases |calls|
  {
    calls != [] &&
      var c := calls[|calls| - 1];
      c == AddCall(r, kind) || (c != RemoveCall(r) && Added(calls[..|calls| - 1], r, kind))
  }

  /** The connections created: the additions for a reference that is not live. */
  function Created(calls: seq<Call>): nat
    decreases |calls|
  {
    if calls == [] then 0
    else
      var front, c := calls[..|calls| - 1], calls[|calls| - 1];
      Created(front) + if c.AddCall? && !Live(front, c.ref) then 1 else 0
  }

  /** The connections created before the one that `r` now has. */
  function NumberOf(calls: seq<Call>, r: reference): nat
    requires Live(calls, r)
    decreases |calls|
  {
    var front := calls[..|calls| - 1];
    if Live(front, r) then NumberOf(front, r) else Created(front)
  }

  lemma {:induction false} RunOneMore(s: State, calls: seq<Call>, c: Call)
    ensures Run(s, calls + [c]) == Perform(Run(s, calls), c)
    decreases |calls|
  {
    if calls == [] {
      assert [] + [c] == [c];
    } else {
      assert (calls + [c])[1..] == calls[1..] + [c];
      RunOneMore(Perform(s, calls[0]), calls[1..], c);
    }
  }

  /** What a state has for `r` after these calls. */
  ghost predicate Decided(s: State, calls: seq<Call>, r: reference) {
    && s.counter == Created(calls)
    && (r in s.connections <==> Live(calls, r))
    && (r in s.connections ==>
          && r in s.numbers && s.numbers[r] == NumberOf(calls, r)
          && s.connections[r].port == (42222 + 4 * NumberOf(calls, r)) % 0x1_0000
          && (s.connections[r].audio <==> Added(calls, r, Audio))
          && (s.connections[r].video <==> Added(calls, r, Video)))
  }

  lemma {:induction false} NotLiveNotAdded(calls: seq<Call>, r: reference, kind: Kind)
    requires !Live(calls, r)
    ensures !Added(calls, r, kind)
    decreases |calls|
  {
    if calls != [] && calls[|calls| - 1].ref != r {
      NotLiveNotAdded(calls[..|calls| - 1], r, kind);
    }
  }

  lemma DecidedAdd(s: State, front: seq<Call>, ref: reference, kind: Kind, r: reference)
    requires Inv(s) && Decided(s, front, ref) && Decided(s, front, r)
    ensures Decided(Add(s, ref, kind), front + [AddCall(ref, kind)], r)
  {
    var calls := front + [AddCall(ref, kind)];
    assert calls[..|calls| - 1] == front;
    if r == ref && !Live(front, r) {
      NotLiveNotAdded(front, r, Audio);
      NotLiveNotAdded(front, r, Video);
    }
  }

  lemma DecidedRemove(s: State, front: seq<Call>, ref: reference, r: reference)
    requires Inv(s) && Decided(s, front, r)
    ensures Decided(Remove(s, ref), front + [RemoveCall(ref)], r)
  {
    var calls := front + [RemoveCall(ref)];
    assert calls[..|calls| - 1] == front;
  }

  /**
   Over every run: the connections are those added and not removed since, each with the tracks added since
   then, and the port of the number of connections created before it.
   */
  lemma {:induction false} CallsDecide(calls: seq<Call>, r: reference)
    ensures Decided(Run(NO_CONNECTIONS, calls), calls, r)
    decreases |calls|
  {
    if calls != [] {
      var front, c := calls[..|calls| - 1], calls[|calls| - 1];
      var s := Run(NO_CONNECTIONS, front);
      assert calls == front + [c];
      RunOneMore(NO_CONNECTIONS, front, c);
      InvHolds(NO_CONNECTIONS, front);
      CallsDecide(front, r);
      CallsDecide(front, c.ref);
      match c
      case AddCall(ref, kind) => DecidedAdd(s, front, ref, kind, r);
      case RemoveCall(ref) => DecidedRemove(s, front, ref, r);
    }
  }

  /** The block of the connection numbered 5828 does wrap around. */
  lemma BlockWraps()
    ensures Port(5828) == 65534 && 0 in Block(Port(5828)) && 1 in Block(Port(5828))
  {
    assert (65534 + 2) % PORT_MODULUS == 0 && (65534 + 3) % PORT_MODULUS == 1;
  }
}
