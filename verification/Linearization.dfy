/** Histories of concurrent single-byte accesses to a controller's memory, and what it means for
    such a history to be linearizable to one flat byte memory.

    Both embedded-controller access paths of the drivers (the NB05 index/data ports and the Uniwill
    direct registers) are proved against this one definition. */
module Linearization {
  import opened Common

  datatype Op<B> = Load(addr: nat) | Store(addr: nat, byte: B)

  /** What an outside observer sees (Invoke, Return) and the hidden instant at which an operation
      acts on the memory (Point). `Firmware` is the controller changing a cell on its own account. */
  datatype Event<B> =
    | Invoke(tid: nat, op: Op<B>)
    | Point(tid: nat, op: Op<B>, seen: B)
    | Firmware(addr: nat, byte: B)
    | Return(tid: nat, op: Op<B>, result: Option<B>)

  /** Where one thread stands in the protocol "call, act once, return". */
  datatype Phase<B> = Quiet | Called(op: Op<B>) | Acted(op: Op<B>, seen: B) | Broken

  predicate InRange<B>(op: Op<B>) {
    op.addr < RAM_SIZE
  }

  /** The flat memory after a history: only points and firmware writes change it. */
  function Replay<B>(ram: seq<B>, h: seq<Event<B>>): (r: seq<B>)
    ensures |r| == |ram|
  {
    if h == [] then ram else
      var before := Replay(ram, h[..|h| - 1]);
      match h[|h| - 1]
      case Point(_, Store(a, b), _) => if a < |ram| then before[a := b] else before
      case Firmware(a, b) => if a < |ram| then before[a := b] else before
      case _ => before
  }

  /** Every load saw the byte that the flat memory held at its point; every store saw its own byte. */
  predicate Faithful<B(==)>(ram: seq<B>, h: seq<Event<B>>) {
    h == [] ||
    (&& Faithful(ram, h[..|h| - 1])
     && match h[|h| - 1]
        case Point(_, Load(a), seen) => a < |ram| && Replay(ram, h[..|h| - 1])[a] == seen
        case Point(_, Store(a, b), seen) => a < |ram| && seen == b
        case _ => true)
  }

  function PhaseOf<B(==)>(h: seq<Event<B>>, t: nat): Phase<B> {
    if h == [] then Quiet else
      var p := PhaseOf(h[..|h| - 1], t);
      match h[|h| - 1]
      case Invoke(u, op) => if u != t then p else if p.Quiet? then Called(op) else Broken
      case Point(u, op, seen) => if u != t then p else if p == Called(op) then Acted(op, seen) else Broken
      case Firmware(_, _) => p
      case Return(u, op, Some(v)) => if u != t then p else if p == Acted(op, v) then Quiet else Broken
      case Return(u, op, None) =>
        if u != t then p else if p == Called(op) || (p.Acted? && p.op == op) then Quiet else Broken
  }

  /** Each call acts at most once, between its invocation and its return; a successful return carries
      exactly what it saw at that instant; and the instants, in order, run one flat memory. */
  ghost predicate Linearizable<B(!new)>(ram: seq<B>, h: seq<Event<B>>) {
    && Faithful(ram, h)
    && forall t: nat :: !PhaseOf(h, t).Broken?
  }

  lemma Snoc<B>(ram: seq<B>, h: seq<Event<B>>, e: Event<B>)
    ensures (h + [e])[..|h + [e]| - 1] == h && (h + [e])[|h + [e]| - 1] == e
  {
  }

  lemma {:induction false} BrokenStaysBroken<B>(h: seq<Event<B>>, n: nat, t: nat)
    requires n <= |h|
    requires PhaseOf(h[..n], t).Broken?
    ensures PhaseOf(h, t).Broken?
    decreases |h| - n
  {
    if n == |h| {
      assert h[..n] == h;
    } else {
      assert h[..n + 1][..n] == h[..n];
      BrokenStaysBroken(h, n + 1, t);
    }
  }

  lemma {:induction false} FaithfulPrefix<B>(ram: seq<B>, h: seq<Event<B>>, n: nat)
    requires n <= |h| && Faithful(ram, h)
    ensures Faithful(ram, h[..n])
    decreases |h| - n
  {
    if n == |h| {
      assert h[..n] == h;
    } else {
      FaithfulPrefix(ram, h, n + 1);
      assert h[..n + 1][..n] == h[..n];
    }
  }

  /** A thread that has acted did so at one earlier instant, and has neither called nor returned since. */
  lemma {:induction false} ActedAt<B>(h: seq<Event<B>>, t: nat, op: Op<B>, v: B) returns (k: nat)
    requires PhaseOf(h, t) == Acted(op, v)
    ensures k < |h| && h[k] == Point(t, op, v) && PhaseOf(h[..k], t) == Called(op)
    ensures forall j :: k < j < |h| && (h[j].Invoke? || h[j].Return?) ==> h[j].tid != t
  {
    var front := h[..|h| - 1];
    if h[|h| - 1] == Point(t, op, v) {
      k := |h| - 1;
    } else {
      k := ActedAt(front, t, op, v);
      assert front[..k] == h[..k];
    }
  }

  /** Index `k` is an instant inside the call of `t` that returns at `n`: `t` loads `v` from `a`, and
      `v` is what the flat memory holds there at that instant. */
  ghost predicate LoadedAt<B>(ram: seq<B>, h: seq<Event<B>>, n: nat, t: nat, a: nat, v: B, k: nat) {
    && k < n <= |h|
    && h[k] == Point(t, Load(a), v)
    && a < |ram| && Replay(ram, h[..k])[a] == v
    && forall j :: k < j < n && (h[j].Invoke? || h[j].Return?) ==> h[j].tid != t
  }

  /** What linearizability buys a caller: a load that returned `v` returned the byte which the flat
      memory held at one instant inside the call. */
  lemma LoadReturnsCurrentByte<B(!new)>(ram: seq<B>, h: seq<Event<B>>, n: nat, t: nat, a: nat, v: B)
    requires Linearizable(ram, h) && n < |h|
    requires h[n] == Return(t, Load(a), Some(v))
    ensures exists k :: LoadedAt(ram, h, n, t, a, v, k)
  {
    assert h[..n + 1][..n] == h[..n];
    if PhaseOf(h[..n], t) != Acted(Load(a), v) {
      BrokenStaysBroken(h, n + 1, t);
      assert false;
    }
    var k := ActedAt(h[..n], t, Load(a), v);
    assert h[..n][..k] == h[..k];
    FaithfulPrefix(ram, h, k + 1);
    assert h[..k + 1][..k] == h[..k];
    assert LoadedAt(ram, h, n, t, a, v, k);
  }
}
