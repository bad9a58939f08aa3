/** Pulses of the Day 20 module network and the order in which the solver's
    queue hands them out.

    A pulse is the tuple `(sender, strength, receiver)`. The solver keeps
    pending pulses in a `heapq` list, so each pop removes a MINIMUM tuple
    under Python's tuple order, where strings compare code point by code
    point and `'high' < 'low'`. The puzzle text instead asks for the order in
    which pulses were sent; both disciplines are modelled here. */
module Pulses {

  import opened Wrappers

  type Label = string

  /** Declared in Python string order: `'high' < 'low'`. */
  datatype Strength = High | Low

  datatype Pulse = Pulse(sender: Label, strength: Strength, receiver: Label)

  /** The pulse the button sends on every press. */
  const ButtonPulse := Pulse("button", Low, "broadcaster")

  /** How pending pulses are taken out: `MinHeap` is `heapq.heappop`, `Fifo`
      takes the oldest pulse first. */
  datatype Discipline = MinHeap | Fifo

  /** Python's `<` on `str`: code point by code point, a proper prefix first. */
  predicate LabelBelow(a: Label, b: Label)
    decreases |a|
  {
    if a == [] then b != []
    else if b == [] then false
    else a[0] < b[0] || (a[0] == b[0] && LabelBelow(a[1..], b[1..]))
  }

  predicate StrengthBelow(s: Strength, t: Strength)
  {
    s.High? && t.Low?
  }

  /** Python's `<` on the tuple `(sender, strength, receiver)`. */
  predicate PulseBelow(p: Pulse, q: Pulse)
  {
    || LabelBelow(p.sender, q.sender)
    || (p.sender == q.sender && StrengthBelow(p.strength, q.strength))
    || (p.sender == q.sender && p.strength == q.strength && LabelBelow(p.receiver, q.receiver))
  }

  lemma {:induction false} LabelBelowIrreflexive(a: Label)
    ensures !LabelBelow(a, a)
    decreases |a|
  {
    if a != [] {
      LabelBelowIrreflexive(a[1..]);
    }
  }

  lemma {:induction false} LabelBelowTransitive(a: Label, b: Label, c: Label)
    requires LabelBelow(a, b) && LabelBelow(b, c)
    ensures LabelBelow(a, c)
    decreases |a|
  {
    if a != [] && a[0] == b[0] && b[0] == c[0] {
      LabelBelowTransitive(a[1..], b[1..], c[1..]);
    }
  }

  /** Distinct labels are always ordered one way or the other. */
  lemma {:induction false} LabelBelowTotal(a: Label, b: Label)
    requires a != b
    ensures LabelBelow(a, b) || LabelBelow(b, a)
    decreases |a|
  {
    if a != [] && b != [] && a[0] == b[0] {
      assert a == [a[0]] + a[1..] && b == [b[0]] + b[1..];
      LabelBelowTotal(a[1..], b[1..]);
    }
  }

  lemma PulseBelowTransitive(p: Pulse, q: Pulse, r: Pulse)
    requires PulseBelow(p, q) && PulseBelow(q, r)
    ensures PulseBelow(p, r)
  {
    if LabelBelow(p.sender, q.sender) && LabelBelow(q.sender, r.sender) {
      LabelBelowTransitive(p.sender, q.sender, r.sender);
    } else if p.sender == q.sender == r.sender && p.strength == q.strength == r.strength {
      LabelBelowTransitive(p.receiver, q.receiver, r.receiver);
    }
  }

  lemma PulseBelowTotal(p: Pulse, q: Pulse)
    requires p != q
    ensures PulseBelow(p, q) || PulseBelow(q, p)
  {
    if p.sender != q.sender {
      LabelBelowTotal(p.sender, q.sender);
    } else if p.strength == q.strength {
      LabelBelowTotal(p.receiver, q.receiver);
    }
  }

  lemma PulseBelowIrreflexive(p: Pulse)
    ensures !PulseBelow(p, p)
  {
    LabelBelowIrreflexive(p.sender);
    LabelBelowIrreflexive(p.receiver);
  }

  /** The position `heapq.heappop` takes: the first queued pulse that no
      other queued pulse is below. */
  function MinIndex(q: seq<Pulse>): (i: nat)
    requires q != []
    ensures i < |q|
  {
    if |q| == 1 then 0
    else
      var k := MinIndex(q[1..]) + 1;
      if PulseBelow(q[k], q[0]) then k else 0
  }

  /** No queued pulse is below the one at `MinIndex`. */
  lemma {:induction false} MinIndexIsLeast(q: seq<Pulse>)
    requires q != []
    ensures forall j :: 0 <= j < |q| ==> !PulseBelow(q[j], q[MinIndex(q)])
  {
    if |q| == 1 {
      PulseBelowIrreflexive(q[0]);
    } else {
      MinIndexIsLeast(q[1..]);
      var k := MinIndex(q[1..]) + 1;
      assert forall j :: 1 <= j < |q| ==> q[j] == q[1..][j - 1];
      if PulseBelow(q[k], q[0]) {
        forall j | 0 <= j < |q| ensures !PulseBelow(q[j], q[k]) {
          if j == 0 && PulseBelow(q[0], q[k]) {
            PulseBelowTransitive(q[0], q[k], q[0]);
            PulseBelowIrreflexive(q[0]);
          }
        }
      } else {
        forall j | 0 <= j < |q| ensures !PulseBelow(q[j], q[0]) {
          if j == 0 {
            PulseBelowIrreflexive(q[0]);
          } else if PulseBelow(q[j], q[0]) {
            if q[0] != q[k] {
              PulseBelowTotal(q[0], q[k]);
              PulseBelowTransitive(q[j], q[0], q[k]);
            }
          }
        }
      }
    }
  }

  /** Removes the pulse the discipline serves next; the rest keep their order. */
  function Pop(d: Discipline, q: seq<Pulse>): (r: (Pulse, seq<Pulse>))
    requires q != []
    ensures |r.1| == |q| - 1
    ensures d == Fifo ==> r.0 == q[0] && r.1 == q[1..]
  {
    var i := if d == Fifo then 0 else MinIndex(q);
    (q[i], q[..i] + q[i + 1..])
  }

  /** A pop takes out exactly one pulse and keeps all the others. */
  lemma PopMultiset(d: Discipline, q: seq<Pulse>)
    requires q != []
    ensures multiset(q) == multiset(Pop(d, q).1) + multiset{Pop(d, q).0}
  {
    var i := if d == Fifo then 0 else MinIndex(q);
    assert q == q[..i] + [q[i]] + q[i + 1..];
  }

  /** Popping takes out a queued pulse and leaves only queued pulses. */
  lemma PopMembers(d: Discipline, q: seq<Pulse>)
    requires q != []
    ensures Pop(d, q).0 in q
    ensures forall x :: x in Pop(d, q).1 ==> x in q
  {
    var (p, rest) := Pop(d, q);
    PopMultiset(d, q);
    assert p in multiset(q);
    forall x | x in rest ensures x in q {
      assert x in multiset(rest);
    }
  }

  /** Under `heapq` the popped pulse is below every other pulse still queued. */
  lemma MinHeapPopIsLeast(d: Discipline, q: seq<Pulse>)
    requires d == MinHeap && q != []
    ensures forall j :: 0 <= j < |q| && q[j] != Pop(d, q).0 ==> PulseBelow(Pop(d, q).0, q[j])
  {
    var i := MinIndex(q);
    MinIndexIsLeast(q);
    forall j | 0 <= j < |q| && q[j] != q[i] ensures PulseBelow(q[i], q[j]) {
      PulseBelowTotal(q[i], q[j]);
    }
  }

  /** One pulse of the given strength from `sender` to each link, in link order. */
  function Emit(sender: Label, s: Strength, links: seq<Label>): (out: seq<Pulse>)
    ensures |out| == |links|
    ensures forall k :: 0 <= k < |links| ==> out[k] == Pulse(sender, s, links[k])
  {
    seq(|links|, k requires 0 <= k < |links| => Pulse(sender, s, links[k]))
  }

  /** Number of pulses of strength `s` in `ps`. */
  function CountStrength(ps: seq<Pulse>, s: Strength): nat
  {
    if ps == [] then 0
    else CountStrength(ps[..|ps| - 1], s) + (if ps[|ps| - 1].strength == s then 1 else 0)
  }

  /** Every pulse is either low or high. */
  lemma {:induction false} CountStrengthSplit(ps: seq<Pulse>)
    ensures CountStrength(ps, Low) + CountStrength(ps, High) == |ps|
  {
    if ps != [] {
      CountStrengthSplit(ps[..|ps| - 1]);
    }
  }

  /** A flip-flop's reaction to a pulse: `None` when it ignores a high pulse;
      otherwise its new state and the strength it sends to every link. */
  function FlipFlopReact(on: bool, s: Strength): (r: Option<(bool, Strength)>)
    ensures r.None? <==> s == High
    ensures r.Some? ==> r.value.0 == !on && (r.value.1 == High <==> r.value.0)
  {
    if s == High then None
    else
      var now := !on;
      Some((now, if now then High else Low))
  }

  /** A flip-flop that was off and receives two low pulses is off again; it
      sent high the first time and low the second. */
  lemma FlipFlopPairLaw(on: bool)
    ensures var first := FlipFlopReact(on, Low);
      first.Some? &&
      var second := FlipFlopReact(first.value.0, Low);
      second.Some? && second.value.0 == on && second.value.1 != first.value.1
  {
  }

  /** Whether a conjunction remembers a high pulse from every input. */
  predicate AllHigh(memory: map<Label, Strength>)
  {
    forall k :: k in memory ==> memory[k] == High
  }

  /** A conjunction's reaction: it first records the strength received from
      `sender`, then sends low if every remembered pulse is high, else high. */
  function ConjunctionReact(memory: map<Label, Strength>, sender: Label, s: Strength): (r: (map<Label, Strength>, Strength))
    ensures r.0.Keys == memory.Keys + {sender}
    ensures sender in memory ==> r.0.Keys == memory.Keys
    ensures r.0[sender] == s && forall k :: k in memory && k != sender ==> r.0[k] == memory[k]
    ensures r.1 == Low <==> (s == High && forall k :: k in memory && k != sender ==> memory[k] == High)
  {
    var updated := memory[sender := s];
    (updated, if AllHigh(updated) then Low else High)
  }
}
