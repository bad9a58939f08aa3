/** Day 20, part two (D20/d20p2.py): the same network with an always-present
    `rx` sink, per-module transmission counters, and a button loop that
    records the press on which any of four watched modules sends a high
    pulse, answering with the lcm of the first four records. */
module PulseWatch {

  import opened Wrappers
  import opened Arith
  import opened Pulses
  import PulseNetwork

  /** `Rx` is the source's `'rx'` category: every unprefixed label other
      than `broadcaster`, and the `rx` module added by hand. It absorbs
      pulses. */
  datatype Kind = Broadcaster | FlipFlop | Conjunction | Rx

  /** A module with its kind, destinations, flip-flop state, the strengths
      last received from each upstream module (`inbound_links`) and the
      number of low and high pulses it has had processed (`transmissions`). */
  datatype Unit = Unit(kind: Kind, links: seq<Label>, on: bool, inbound: map<Label, Strength>, lowSent: nat, highSent: nat)

  const Sink: Label := "rx"

  /** The four modules whose high pulses are watched. */
  const Targets: seq<Label> := ["jq", "cc", "sp", "nx"]

  function KindOf(c: PulseNetwork.Category): Kind
  {
    match c
    case Broadcaster => Broadcaster
    case FlipFlop => FlipFlop
    case Conjunction => Conjunction
    case Untyped => Rx
  }

  /** The declared modules plus the hand-made `rx`, before inbound links are
      filled in. */
  function Declared(lines: seq<PulseNetwork.Line>): map<Label, Unit>
    requires PulseNetwork.NamesNonEmpty(lines)
  {
    var t := PulseNetwork.Table(lines);
    (map l | l in t :: Unit(KindOf(t[l].category), t[l].links, false, map[], 0, 0))[Sink := Unit(Rx, [], false, map[], 0, 0)]
  }

  /** The labels whose destination list contains `target`. */
  function Feeders(t: map<Label, Unit>, target: Label): set<Label>
  {
    set s | s in t && target in t[s].links
  }

  /** Every module's inbound links: a low pulse from each module that sends
      to it. */
  function Link(t: map<Label, Unit>): (mods: map<Label, Unit>)
    ensures mods.Keys == t.Keys
    ensures forall l :: l in mods ==> mods[l] == t[l].(inbound := mods[l].inbound)
    ensures forall l :: l in mods ==> mods[l].inbound.Keys == Feeders(t, l)
    ensures forall l, s :: l in mods && s in mods[l].inbound ==> mods[l].inbound[s] == Low
  {
    map l | l in t :: t[l].(inbound := map s | s in Feeders(t, l) :: Low)
  }

  /** `parse_input` of part two. */
  function Parse(lines: seq<PulseNetwork.Line>): map<Label, Unit>
    requires PulseNetwork.NamesNonEmpty(lines)
  {
    Link(Declared(lines))
  }

  /** After parsing: `rx` is a sink with no links; every other declared label
      has the kind and links of its last line, unprefixed names other than
      `broadcaster` becoming sinks; every module is off with zero counters;
      and every module's inbound links are exactly its feeders, each low. */
  lemma ParseShape(lines: seq<PulseNetwork.Line>)
    requires PulseNetwork.NamesNonEmpty(lines)
    ensures var mods := Parse(lines);
      && Sink in mods && mods[Sink].kind == Rx && mods[Sink].links == []
      && mods.Keys == PulseNetwork.Table(lines).Keys + {Sink}
      && (forall l :: l in PulseNetwork.Table(lines) && l != Sink ==>
            mods[l].kind == KindOf(PulseNetwork.Table(lines)[l].category)
            && mods[l].links == PulseNetwork.Table(lines)[l].links)
      && (forall l :: l in mods ==> !mods[l].on && mods[l].lowSent == 0 && mods[l].highSent == 0)
      && (forall l :: l in mods ==> mods[l].inbound.Keys == Feeders(mods, l))
      && (forall l, s :: l in mods && s in mods[l].inbound ==> mods[l].inbound[s] == Low)
  {
    var t := Declared(lines);
    DeclaredShape(lines);
    var mods := Link(t);
    forall l ensures Feeders(mods, l) == Feeders(t, l) {
      assert forall s :: s in mods ==> mods[s].links == t[s].links;
    }
  }

  /** The declared table: `rx` as a sink, every other label as its last line
      says, everything off with zero counters and no inbound links yet. */
  lemma DeclaredShape(lines: seq<PulseNetwork.Line>)
    requires PulseNetwork.NamesNonEmpty(lines)
    ensures var t := Declared(lines); var tab := PulseNetwork.Table(lines);
      && t.Keys == tab.Keys + {Sink}
      && t[Sink] == Unit(Rx, [], false, map[], 0, 0)
      && (forall l :: l in tab && l != Sink ==> t[l] == Unit(KindOf(tab[l].category), tab[l].links, false, map[], 0, 0))
      && (forall l :: l in t ==> !t[l].on && t[l].lowSent == 0 && t[l].highSent == 0)
  {
  }

  /** A module's counters after one more pulse of strength `s` was processed
      from it. */
  function Counted(m: Unit, s: Strength): (r: Unit)
    ensures r.lowSent == m.lowSent + (if s == Low then 1 else 0)
    ensures r.highSent == m.highSent + (if s == High then 1 else 0)
    ensures r == m.(lowSent := r.lowSent, highSent := r.highSent)
  {
    match s
    case Low => m.(lowSent := m.lowSent + 1)
    case High => m.(highSent := m.highSent + 1)
  }

  /** What one pulse does, or a crash: `modules[sender]` raises `KeyError`
      when a sender other than the button has no module. */
  datatype Reaction = Reacted(modules: map<Label, Unit>, out: seq<Pulse>) | Crashed

  /** `process_signal` of part two. The sender's counter is bumped first, so
      a module sending to itself sees its own bumped counters. */
  function React(mods: map<Label, Unit>, p: Pulse): Reaction
  {
    if p.sender != "button" && p.sender !in mods then Crashed
    else Deliver(Bump(mods, p), p)
  }

  /** The sender's counter bumped; a button pulse counts nowhere. */
  function Bump(mods: map<Label, Unit>, p: Pulse): map<Label, Unit>
    requires p.sender == "button" || p.sender in mods
  {
    if p.sender == "button" then mods else mods[p.sender := Counted(mods[p.sender], p.strength)]
  }

  /** The receiver's reaction, once the sender has been counted. */
  function Deliver(mods: map<Label, Unit>, p: Pulse): (r: Reaction)
    ensures r.Reacted?
  {
    if p.receiver !in mods then Reacted(mods, [])
    else
      var m := mods[p.receiver];
      match m.kind
      case Rx => Reacted(mods, [])
      case Broadcaster => Reacted(mods, Emit(p.receiver, p.strength, m.links))
      case FlipFlop =>
        (match FlipFlopReact(m.on, p.strength)
         case None => Reacted(mods, [])
         case Some(res) => Reacted(mods[p.receiver := m.(on := res.0)], Emit(p.receiver, res.1, m.links)))
      case Conjunction =>
        var res := ConjunctionReact(m.inbound, p.sender, p.strength);
        Reacted(mods[p.receiver := m.(inbound := res.0)], Emit(p.receiver, res.1, m.links))
  }

  /** The counting rule: a pulse from a known module adds one to that
      module's counter for its strength and to nothing else; a button pulse
      counts nowhere; an unknown sender crashes. */
  lemma ReactCountsSender(mods: map<Label, Unit>, p: Pulse)
    ensures var r := React(mods, p);
      && (r.Crashed? <==> p.sender != "button" && p.sender !in mods)
      && (r.Reacted? ==> r.modules.Keys == mods.Keys)
      && (r.Reacted? ==> forall l :: l in mods ==>
            && r.modules[l].lowSent == mods[l].lowSent + (if l == p.sender != "button" && p.strength == Low then 1 else 0)
            && r.modules[l].highSent == mods[l].highSent + (if l == p.sender != "button" && p.strength == High then 1 else 0)
            && r.modules[l].kind == mods[l].kind && r.modules[l].links == mods[l].links)
  {
    if p.sender == "button" || p.sender in mods {
      var bumped := Bump(mods, p);
      BumpCounts(mods, p);
      DeliverKeepsCounters(bumped, p);
    }
  }

  lemma BumpCounts(mods: map<Label, Unit>, p: Pulse)
    requires p.sender == "button" || p.sender in mods
    ensures var b := Bump(mods, p);
      && b.Keys == mods.Keys
      && forall l :: l in mods ==>
        && b[l].lowSent == mods[l].lowSent + (if l == p.sender != "button" && p.strength == Low then 1 else 0)
        && b[l].highSent == mods[l].highSent + (if l == p.sender != "button" && p.strength == High then 1 else 0)
        && b[l].kind == mods[l].kind && b[l].links == mods[l].links
  {
  }

  lemma DeliverKeepsCounters(mods: map<Label, Unit>, p: Pulse)
    ensures var r := Deliver(mods, p);
      && r.modules.Keys == mods.Keys
      && forall l :: l in mods ==>
        && r.modules[l].lowSent == mods[l].lowSent && r.modules[l].highSent == mods[l].highSent
        && r.modules[l].kind == mods[l].kind && r.modules[l].links == mods[l].links
  {
  }

  /** Every pulse sent leaves the receiver, which is a known module. */
  lemma ReactSends(mods: map<Label, Unit>, p: Pulse)
    ensures var r := React(mods, p);
      r.Reacted? && r.out != [] ==> p.receiver in mods && forall k :: 0 <= k < |r.out| ==> r.out[k].sender == p.receiver
  {
  }

  /** A pulse to an unknown label or to a sink changes nothing but the
      sender's counter and sends nothing. */
  lemma ReactAbsorbs(mods: map<Label, Unit>, p: Pulse)
    requires p.sender == "button" || p.sender in mods
    requires p.receiver !in mods || mods[p.receiver].kind == Rx
    ensures var r := React(mods, p);
      r.Reacted? && r.out == [] &&
      forall l :: l in mods && l != p.sender ==> r.modules[l] == mods[l]
  {
  }

  /** Flip-flops and conjunctions react as in part one, the conjunction's
      memory being its inbound links. */
  lemma ReactLikePartOne(mods: map<Label, Unit>, p: Pulse)
    requires p.sender == "button" || p.sender in mods
    requires p.receiver in mods && p.receiver != p.sender
    ensures var r := React(mods, p); var m := mods[p.receiver];
      && r.Reacted?
      && (m.kind == FlipFlop ==>
            match FlipFlopReact(m.on, p.strength)
            case None => r.out == [] && r.modules[p.receiver] == m
            case Some(res) => r.modules[p.receiver] == m.(on := res.0) && r.out == Emit(p.receiver, res.1, m.links))
      && (m.kind == Conjunction ==>
            var res := ConjunctionReact(m.inbound, p.sender, p.strength);
            r.modules[p.receiver] == m.(inbound := res.0) && r.out == Emit(p.receiver, res.1, m.links))
      && (m.kind == Broadcaster ==> r.out == Emit(p.receiver, p.strength, m.links) && r.modules[p.receiver] == m)
  {
  }

  /** A high pulse from one of the watched modules. */
  predicate Watched(p: Pulse)
  {
    p.sender in Targets && p.strength == High
  }

  /** The records one reaction adds: the current press count once for each
      high pulse sent by a watched module. */
  function Hits(out: seq<Pulse>, press: nat): (r: seq<nat>)
    ensures |r| <= |out|
    ensures forall k :: 0 <= k < |r| ==> r[k] == press
  {
    if out == [] then []
    else
      var p := out[|out| - 1];
      Hits(out[..|out| - 1], press) + (if Watched(p) then [press] else [])
  }

  /** Every pulse from a watched module that is high is recorded. */
  lemma {:induction false} HitsCount(out: seq<Pulse>, press: nat)
    ensures |Hits(out, press)| == |set k | 0 <= k < |out| && Watched(out[k])|
  {
    if out != [] {
      var init := out[..|out| - 1];
      HitsCount(init, press);
      var last := |out| - 1;
      var a := set k | 0 <= k < |init| && Watched(init[k]);
      var a' := set k | 0 <= k < last && Watched(out[k]);
      forall x ensures x in a <==> x in a' {
        if 0 <= x < last {
          assert init[x] == out[x];
        }
      }
      assert a == a';
      var b := set k | 0 <= k < |out| && Watched(out[k]);
      var extra: set<int> := if Watched(out[last]) then {last} else {};
      forall x ensures x in b <==> x in a' + extra {
        if x == last {
          assert x in extra <==> Watched(out[x]);
        }
      }
      assert b == a' + extra;
      assert last !in a';
      assert |Hits(out, press)| == |Hits(init, press)| + |extra|;
    }
  }

  /** The state of part two's `push_button` loop. */
  datatype Watch = Watch(modules: map<Label, Unit>, queue: seq<Pulse>, presses: nat, records: seq<nat>)

  datatype Step = Moved(next: Watch) | Found(records: seq<nat>) | Broke

  /** One iteration: take a pulse out, react, queue what was sent and record
      the watched high pulses, stopping at the fourth record; on an empty
      queue, count a press and queue the button's pulse. */
  function Next(d: Discipline, w: Watch): Step
  {
    if w.queue != [] then
      var (p, rest) := Pop(d, w.queue);
      match React(w.modules, p)
      case Crashed => Broke
      case Reacted(mods, out) =>
        var records := w.records + Hits(out, w.presses);
        if |records| >= 4 then Found(records[..4])
        else Moved(Watch(mods, rest + out, w.presses, records))
    else
      Moved(w.(presses := w.presses + 1, queue := [ButtonPulse]))
  }

  /** How a run ended: the lcm of the first four records, or a crash, or out
      of fuel. */
  datatype Run = Answered(answer: nat, records: seq<nat>) | Crash | OutOfFuel

  function Simulate(d: Discipline, w: Watch, fuel: nat): Run
    decreases fuel
  {
    if fuel == 0 then OutOfFuel
    else
      match Next(d, w)
      case Found(records) => Answered(LcmOf(records), records)
      case Broke => Crash
      case Moved(n) => Simulate(d, n, fuel - 1)
  }

  /** One iteration on a non-empty queue: pop, react, record. */
  lemma NextTakesOut(d: Discipline, w: Watch)
    requires w.queue != []
    ensures var (p, rest) := Pop(d, w.queue);
      match React(w.modules, p)
      case Crashed => Next(d, w) == Broke
      case Reacted(mods, out) =>
        var records := w.records + Hits(out, w.presses);
        Next(d, w) == if |records| >= 4 then Found(records[..4]) else Moved(Watch(mods, rest + out, w.presses, records))
  {
  }

  /** The records invariant: fewer than four, non-decreasing, each between 1
      and the presses made so far. */
  predicate RecordsValid(records: seq<nat>, presses: nat)
  {
    && |records| < 4
    && (forall k :: 0 <= k < |records| ==> 1 <= records[k] <= presses)
    && (forall j, k :: 0 <= j < k < |records| ==> records[j] <= records[k])
  }

  /** Every queued pulse was sent by the button or by a known module. */
  predicate SendersKnown(mods: map<Label, Unit>, q: seq<Pulse>)
  {
    forall i {:trigger KnownSender(mods, q[i])} :: 0 <= i < |q| ==> KnownSender(mods, q[i])
  }

  /** The pulse was sent by the button or by a known module. */
  predicate KnownSender(mods: map<Label, Unit>, p: Pulse)
  {
    p.sender == "button" || p.sender in mods
  }

  /** The records only ever grow at the end by the current press count. */
  lemma NextRecords(d: Discipline, w: Watch)
    requires RecordsValid(w.records, w.presses)
    requires w.queue != [] ==> w.presses >= 1
    ensures match Next(d, w)
      case Moved(n) =>
        && RecordsValid(n.records, n.presses) && (n.queue != [] ==> n.presses >= 1)
        && n.presses >= w.presses && w.records <= n.records
      case Found(records) =>
        && |records| == 4 && w.records <= records
        && (forall k :: 0 <= k < 4 ==> 1 <= records[k] <= w.presses)
        && (forall j, k :: 0 <= j < k < 4 ==> records[j] <= records[k])
      case Broke => true
  {
    if w.queue != [] {
      var (p, rest) := Pop(d, w.queue);
      var re := React(w.modules, p);
      if re.Reacted? {
        var records := w.records + Hits(re.out, w.presses);
        assert forall k :: |w.records| <= k < |records| ==> records[k] == w.presses;
        if |records| >= 4 {
          assert w.records <= records[..4];
        }
      }
    }
  }

  /** The answer is the lcm of four non-decreasing records, each a press
      number counted from 1; it is positive and a multiple of each. */
  lemma {:induction false} SimulateAnswer(d: Discipline, w: Watch, fuel: nat)
    requires RecordsValid(w.records, w.presses)
    requires w.queue != [] ==> w.presses >= 1
    ensures var r := Simulate(d, w, fuel);
      r.Answered? ==>
        && |r.records| == 4 && w.records <= r.records
        && (forall j, k :: 0 <= j < k < 4 ==> 1 <= r.records[j] <= r.records[k])
        && r.answer == LcmOf(r.records) && r.answer > 0
        && (forall k :: 0 <= k < 4 ==> Divides(r.records[k], r.answer))
    decreases fuel
  {
    var moved, n := AnswerStep(d, w, fuel);
    if moved {
      SimulateAnswer(d, n, fuel - 1);
    }
  }

  /** Either the run ends here with a valid answer (or none), or it goes
      on from `n`, which keeps the records invariant and the records so far. */
  lemma AnswerStep(d: Discipline, w: Watch, fuel: nat) returns (moved: bool, n: Watch)
    requires RecordsValid(w.records, w.presses)
    requires w.queue != [] ==> w.presses >= 1
    ensures !moved ==> var r := Simulate(d, w, fuel);
      r.Answered? ==>
        && |r.records| == 4 && w.records <= r.records
        && (forall j, k :: 0 <= j < k < 4 ==> 1 <= r.records[j] <= r.records[k])
        && r.answer == LcmOf(r.records) && r.answer > 0
        && (forall k :: 0 <= k < 4 ==> Divides(r.records[k], r.answer))
    ensures moved ==> fuel > 0 && Simulate(d, w, fuel) == Simulate(d, n, fuel - 1)
    ensures moved ==> RecordsValid(n.records, n.presses) && (n.queue != [] ==> n.presses >= 1) && w.records <= n.records
  {
    moved, n := false, w;
    if fuel > 0 {
      NextRecords(d, w);
      match Next(d, w)
      case Found(records) =>
        LcmOfIsLeast(records);
      case Broke =>
      case Moved(n') =>
        moved, n := true, n';
    }
  }

  /** The `KeyError` is unreachable: when every queued pulse comes from the
      button or a known module, so does every pulse sent later. */
  lemma NextNeverBreaks(d: Discipline, w: Watch)
    requires SendersKnown(w.modules, w.queue)
    ensures Next(d, w) != Broke
    ensures Next(d, w).Moved? ==> SendersKnown(Next(d, w).next.modules, Next(d, w).next.queue)
  {
    if w.queue != [] {
      var (p, rest) := Pop(d, w.queue);
      PopMembers(d, w.queue);
      var j :| 0 <= j < |w.queue| && w.queue[j] == p;
      assert KnownSender(w.modules, w.queue[j]);
      ReactCountsSender(w.modules, p);
      ReactSends(w.modules, p);
      var re := React(w.modules, p);
      var q := rest + re.out;
      forall i | 0 <= i < |q| ensures KnownSender(re.modules, q[i]) {
        if i < |rest| {
          assert q[i] in rest;
          var k :| 0 <= k < |w.queue| && w.queue[k] == q[i];
          assert KnownSender(w.modules, w.queue[k]);
        } else {
          assert q[i] == re.out[i - |rest|];
        }
      }
    }
  }

  lemma {:induction false} SimulateNeverCrashes(d: Discipline, w: Watch, fuel: nat)
    requires SendersKnown(w.modules, w.queue)
    ensures !Simulate(d, w, fuel).Crash?
    decreases fuel
  {
    var moved, n := NeverBreaksStep(d, w, fuel);
    if moved {
      SimulateNeverCrashes(d, n, fuel - 1);
    }
  }

  /** Either the run ends here without a crash, or it goes on from `n`,
      whose queued pulses still come from known senders. */
  lemma NeverBreaksStep(d: Discipline, w: Watch, fuel: nat) returns (moved: bool, n: Watch)
    requires SendersKnown(w.modules, w.queue)
    ensures !moved ==> !Simulate(d, w, fuel).Crash?
    ensures moved ==> fuel > 0 && SendersKnown(n.modules, n.queue) && Simulate(d, w, fuel) == Simulate(d, n, fuel - 1)
  {
    moved, n := false, w;
    if fuel > 0 {
      NextNeverBreaks(d, w);
      if Next(d, w).Moved? {
        moved, n := true, Next(d, w).next;
      }
    }
  }

  /** The global module table of part two, updated in place. */
  class Network {
    var modules: map<Label, Unit>

    constructor (lines: seq<PulseNetwork.Line>)
      requires PulseNetwork.NamesNonEmpty(lines)
      ensures modules == Parse(lines)
    {
      modules := Parse(lines);
    }

    /** `process_signal` of part two. */
    method ProcessSignal(p: Pulse) returns (out: seq<Pulse>, crashed: bool)
      modifies this
      ensures React(old(modules), p) == if crashed then Crashed else Reacted(modules, out)
      ensures crashed ==> modules == old(modules)
    {
      out, crashed := [], false;
      if p.sender != "button" {
        if p.sender !in modules {
          crashed := true;
          return;
        }
        modules := modules[p.sender := Counted(modules[p.sender], p.strength)];
      }
      if p.receiver !in modules {
        return;
      }
      var m := modules[p.receiver];
      match m.kind
      case Rx =>
      case Broadcaster =>
        out := PulseNetwork.Send(p.receiver, p.strength, m.links);
      case FlipFlop =>
        if p.strength == High {
          return;
        }
        var now := !m.on;
        modules := modules[p.receiver := m.(on := now)];
        out := PulseNetwork.Send(p.receiver, if now then High else Low, m.links);
      case Conjunction =>
        var inbound := m.inbound[p.sender := p.strength];
        modules := modules[p.receiver := m.(inbound := inbound)];
        out := PulseNetwork.Send(p.receiver, if AllHigh(inbound) then Low else High, m.links);
    }

    /** `push_button` of part two, bounded by `fuel` iterations. */
    method PushButton(d: Discipline, fuel: nat) returns (outcome: Run)
      modifies this
      ensures outcome == Simulate(d, Watch(old(modules), [], 0, []), fuel)
    {
      ghost var start := Watch(modules, [], 0, []);
      var queue: seq<Pulse> := [];
      var pressed := 0;
      var records: seq<nat> := [];
      var n := fuel;
      while n > 0
        invariant |records| < 4
        invariant Simulate(d, Watch(modules, queue, pressed, records), n) == Simulate(d, start, fuel)
      {
        ghost var w := Watch(modules, queue, pressed, records);
        if queue != [] {
          var step := TakeOut(d, queue, pressed, records);
          match step
          case Broke => return Crash;
          case Found(r) => return Answered(LcmOf(r), r);
          case Moved(next) => queue, records := next.queue, next.records;
        } else {
          pressed := pressed + 1;
          queue := [ButtonPulse];
          assert Next(d, w) == Moved(Watch(modules, queue, pressed, records));
        }
        n := n - 1;
      }
      outcome := OutOfFuel;
    }

    /** One iteration of `push_button`'s loop on a non-empty queue: take a
        pulse out, process it and record what it sent. */
    method TakeOut(d: Discipline, queue: seq<Pulse>, pressed: nat, records: seq<nat>) returns (step: Step)
      requires queue != [] && |records| < 4
      modifies this
      ensures step == Next(d, Watch(old(modules), queue, pressed, records))
      ensures step.Moved? ==> step.next.modules == modules && step.next.presses == pressed && |step.next.records| < 4
    {
      var (p, rest) := Pop(d, queue);
      NextTakesOut(d, Watch(modules, queue, pressed, records));
      var out, crashed := ProcessSignal(p);
      if crashed {
        return Broke;
      }
      var updated, found := Record(records, out, pressed);
      if found {
        return Found(updated);
      }
      return Moved(Watch(modules, rest + out, pressed, updated));
    }
  }

  /** The loop over the sent pulses that appends the watched high pulses'
      press count, stopping as soon as there are four records. */
  method Record(records: seq<nat>, out: seq<Pulse>, press: nat) returns (updated: seq<nat>, found: bool)
    requires |records| < 4
    ensures var all := records + Hits(out, press);
      && (found <==> |all| >= 4)
      && updated == if found then all[..4] else all
  {
    updated := records;
    for k := 0 to |out|
      invariant updated == records + Hits(out[..k], press)
      invariant |updated| < 4
    {
      assert out[..k + 1][..k] == out[..k];
      if Watched(out[k]) {
        updated := updated + [press];
        if |updated| == 4 {
          HitsPrefix(out, k + 1, press);
          return updated, true;
        }
      }
    }
    assert out[..|out|] == out;
    found := false;
  }

  /** Records from a prefix of the sent pulses are a prefix of all of them. */
  lemma {:induction false} HitsPrefix(out: seq<Pulse>, k: nat, press: nat)
    requires k <= |out|
    ensures Hits(out[..k], press) <= Hits(out, press)
    decreases |out|
  {
    if k < |out| {
      assert out[..|out| - 1][..k] == out[..k];
      HitsPrefix(out[..|out| - 1], k, press);
    } else {
      assert out[..k] == out;
    }
  }
}
