/** Day 20, part one (D20/d20p1.py): the module network, its reaction to one
    pulse, and the button loop that counts low and high pulses over 1000
    presses. */
module PulseNetwork {

  import opened Wrappers
  import opened Pulses

  /** `Untyped` is a module declared without prefix under a name other than
      `broadcaster`: the solver gives it no category and crashes when it
      receives a pulse. */
  datatype Category = Broadcaster | FlipFlop | Conjunction | Untyped

  /** One entry of the module table: kind, destinations, flip-flop state
      (`on`; the solver's `'on'`/`'off'`) and conjunction memory. */
  datatype Module = Module(category: Category, links: seq<Label>, on: bool, memory: map<Label, Strength>)

  /** One configuration line, already split at ` -> ` and `, `. */
  datatype Line = Line(name: string, links: seq<Label>)

  /** The type prefix written before a label. */
  function Prefix(c: Category): string
  {
    match c
    case FlipFlop => "%"
    case Conjunction => "&"
    case _ => ""
  }

  /** The category and bare label of a declared name. Writing the category's
      prefix before the label gives the name back. */
  function Classify(name: string): (r: (Category, Label))
    requires name != []
    ensures Prefix(r.0) + r.1 == name
    ensures r.0 == FlipFlop <==> name[0] == '%'
    ensures r.0 == Conjunction <==> name[0] == '&'
    ensures r.0 == Broadcaster <==> name == "broadcaster"
  {
    if name[0] == '%' then (FlipFlop, name[1..])
    else if name[0] == '&' then (Conjunction, name[1..])
    else if name == "broadcaster" then (Broadcaster, name)
    else (Untyped, name)
  }

  /** `label[0]` fails on an empty name, so every line must name something. */
  predicate NamesNonEmpty(lines: seq<Line>)
  {
    forall i :: 0 <= i < |lines| ==> lines[i].name != []
  }

  /** The label line `i` declares. */
  function LabelOf(lines: seq<Line>, i: nat): Label
    requires NamesNonEmpty(lines) && i < |lines|
  {
    Classify(lines[i].name).1
  }

  /** The module table before conjunction memory is filled in: one entry per
      line, a later line overwriting an earlier one with the same label. */
  function Table(lines: seq<Line>): (t: map<Label, Module>)
    requires NamesNonEmpty(lines)
    ensures forall l :: l in t ==> !t[l].on && t[l].memory == map[]
  {
    if lines == [] then map[]
    else
      var c := Classify(lines[|lines| - 1].name);
      Table(lines[..|lines| - 1])[c.1 := Module(c.0, lines[|lines| - 1].links, false, map[])]
  }

  /** The table has an entry for exactly the labels the lines declare. */
  lemma {:induction false} TableKeys(lines: seq<Line>)
    requires NamesNonEmpty(lines)
    ensures forall i :: 0 <= i < |lines| ==> LabelOf(lines, i) in Table(lines)
    ensures forall l :: l in Table(lines) ==> exists i :: 0 <= i < |lines| && LabelOf(lines, i) == l
  {
    if lines != [] {
      var init := lines[..|lines| - 1];
      var last := |lines| - 1;
      assert NamesNonEmpty(init);
      TableKeys(init);
      forall i | 0 <= i < last ensures LabelOf(lines, i) == LabelOf(init, i) {
        assert lines[i] == init[i];
      }
      forall l | l in Table(lines) ensures exists i :: 0 <= i < |lines| && LabelOf(lines, i) == l {
        if l != LabelOf(lines, last) {
          var i :| 0 <= i < |init| && LabelOf(init, i) == l;
          assert LabelOf(lines, i) == l;
        }
      }
    }
  }

  /** The entry of a label comes from the last line that declares it. */
  lemma {:induction false} TableLastLineWins(lines: seq<Line>, i: nat)
    requires NamesNonEmpty(lines) && i < |lines|
    requires forall j :: i < j < |lines| ==> LabelOf(lines, j) != LabelOf(lines, i)
    ensures LabelOf(lines, i) in Table(lines)
    ensures var c := Classify(lines[i].name);
      Table(lines)[c.1] == Module(c.0, lines[i].links, false, map[])
  {
    if i < |lines| - 1 {
      var init := lines[..|lines| - 1];
      assert NamesNonEmpty(init) by {
        forall j | 0 <= j < |init| ensures init[j].name != [] {
          assert init[j] == lines[j];
        }
      }
      assert init[i] == lines[i];
      forall j | i < j < |init| ensures LabelOf(init, j) != LabelOf(init, i) {
        assert init[j] == lines[j];
        assert LabelOf(init, j) == LabelOf(lines, j);
      }
      TableLastLineWins(init, i);
      var c := Classify(lines[|lines| - 1].name);
      assert c.1 == LabelOf(lines, |lines| - 1) != LabelOf(lines, i);
      assert Table(lines) == Table(init)[c.1 := Module(c.0, lines[|lines| - 1].links, false, map[])];
    }
  }

  /** The labels whose destination list contains `target`. */
  function Feeders(t: map<Label, Module>, target: Label): set<Label>
  {
    set s | s in t && target in t[s].links
  }

  /** A conjunction's starting memory: a low pulse from every feeder. */
  function InitialMemory(t: map<Label, Module>, target: Label): (memory: map<Label, Strength>)
    ensures memory.Keys == Feeders(t, target)
    ensures forall s :: s in memory ==> memory[s] == Low
  {
    map s | s in Feeders(t, target) :: Low
  }

  /** Fills in every conjunction's memory with a low pulse from each of its
      feeders; nothing else changes. */
  function Wire(t: map<Label, Module>): (mods: map<Label, Module>)
    ensures mods.Keys == t.Keys
    ensures forall l :: l in mods ==>
      && mods[l].category == t[l].category
      && mods[l].links == t[l].links
      && mods[l].on == t[l].on
    ensures forall l :: l in mods && mods[l].category == Conjunction ==> mods[l].memory == InitialMemory(t, l)
    ensures forall l :: l in mods && mods[l].category != Conjunction ==> mods[l].memory == t[l].memory
  {
    map l | l in t ::
      if t[l].category == Conjunction then t[l].(memory := InitialMemory(t, l)) else t[l]
  }

  /** `parse_input`: the table, with every conjunction remembering a low
      pulse from each module that sends to it. */
  function Parse(lines: seq<Line>): map<Label, Module>
    requires NamesNonEmpty(lines)
  {
    Wire(Table(lines))
  }

  /** After parsing, every conjunction remembers exactly its feeders, each
      with a low pulse, and the button's pulse meets the queue invariant. */
  lemma ParseMatchesWiring(lines: seq<Line>)
    requires NamesNonEmpty(lines)
    ensures MemoryMatchesWiring(Parse(lines))
    ensures forall l :: l in Parse(lines) && Parse(lines)[l].category == Conjunction ==>
      forall s :: s in Parse(lines)[l].memory ==> Parse(lines)[l].memory[s] == Low
  {
    var t := Table(lines);
    var mods := Wire(t);
    assert forall l :: Feeders(mods, l) == Feeders(t, l);
  }

  /** What one pulse does: the new module table and the pulses sent, or a
      crash (a pulse reaching an `Untyped` module makes `process_signal`
      return `None`, which the caller cannot iterate). */
  datatype Reaction = Reacted(modules: map<Label, Module>, out: seq<Pulse>) | Crashed

  /** `process_signal`. */
  function React(mods: map<Label, Module>, p: Pulse): (r: Reaction)
  {
    if p.receiver !in mods then Reacted(mods, [])
    else
      var m := mods[p.receiver];
      match m.category
      case Broadcaster =>
        Reacted(mods, Emit(p.receiver, p.strength, m.links))
      case FlipFlop =>
        (match FlipFlopReact(m.on, p.strength)
         case None => Reacted(mods, [])
         case Some(res) =>
           Reacted(mods[p.receiver := m.(on := res.0)], Emit(p.receiver, res.1, m.links)))
      case Conjunction =>
        var res := ConjunctionReact(m.memory, p.sender, p.strength);
        Reacted(mods[p.receiver := m.(memory := res.0)], Emit(p.receiver, res.1, m.links))
      case Untyped =>
        Crashed
  }

  /** What any reaction keeps: it crashes exactly on an `Untyped` receiver;
      otherwise only the receiver's state may change, never a category or a
      wiring, and every pulse sent leaves the receiver towards one of its
      links. */
  lemma ReactFrame(mods: map<Label, Module>, p: Pulse)
    ensures var r := React(mods, p);
      && (r.Crashed? <==> p.receiver in mods && mods[p.receiver].category == Untyped)
      && (r.Reacted? ==> r.modules.Keys == mods.Keys)
      && (r.Reacted? ==> forall l :: l in mods && l != p.receiver ==> r.modules[l] == mods[l])
      && (r.Reacted? ==> forall l :: l in mods ==>
            r.modules[l].category == mods[l].category && r.modules[l].links == mods[l].links)
      && (r.Reacted? && r.out != [] ==> p.receiver in mods && forall k :: 0 <= k < |r.out| ==>
            r.out[k].sender == p.receiver && r.out[k].receiver in mods[p.receiver].links)
  {
  }

  /** A pulse to a label with no module is dropped without effect. */
  lemma ReactUnknownReceiver(mods: map<Label, Module>, p: Pulse)
    requires p.receiver !in mods
    ensures React(mods, p) == Reacted(mods, [])
  {
  }

  /** The broadcaster forwards the strength it received to every link. */
  lemma ReactBroadcaster(mods: map<Label, Module>, p: Pulse)
    requires p.receiver in mods && mods[p.receiver].category == Broadcaster
    ensures React(mods, p).Reacted? && React(mods, p).modules == mods
    ensures React(mods, p).out == Emit(p.receiver, p.strength, mods[p.receiver].links)
  {
  }

  /** A flip-flop ignores a high pulse; a low pulse toggles it, and it then
      sends high exactly when it is now on. */
  lemma ReactFlipFlop(mods: map<Label, Module>, p: Pulse)
    requires p.receiver in mods && mods[p.receiver].category == FlipFlop
    ensures var r := React(mods, p);
      r.Reacted? &&
      (p.strength == High ==> r == Reacted(mods, [])) &&
      (p.strength == Low ==>
        var now := r.modules[p.receiver].on;
        now == !mods[p.receiver].on &&
        r.out == Emit(p.receiver, if now then High else Low, mods[p.receiver].links))
  {
  }

  /** A conjunction records the sender's strength (keeping its key set when the
      sender is already remembered), then sends low exactly when every
      remembered pulse is high. */
  lemma ReactConjunction(mods: map<Label, Module>, p: Pulse)
    requires p.receiver in mods && mods[p.receiver].category == Conjunction
    ensures var r := React(mods, p);
      var mem := r.modules[p.receiver].memory;
      r.Reacted? &&
      mem == mods[p.receiver].memory[p.sender := p.strength] &&
      (p.sender in mods[p.receiver].memory ==> mem.Keys == mods[p.receiver].memory.Keys) &&
      r.out == Emit(p.receiver, if forall k :: k in mem ==> mem[k] == High then Low else High, mods[p.receiver].links)
  {
  }

  /** The state of `push_button`'s loop. */
  datatype Sim = Sim(modules: map<Label, Module>, queue: seq<Pulse>, pushesLeft: nat, low: nat, high: nat)

  /** One iteration of `push_button`'s loop. `Moved` also reports, for the
      proofs, the pulses taken out and queued and the presses made. */
  datatype Step = Moved(next: Sim, popped: seq<Pulse>, sent: seq<Pulse>, pressed: nat) | Halted | Broke

  /** Take a pulse out, count it and let its receiver react; else press the
      button if presses are left; else stop. */
  function Next(d: Discipline, s: Sim): (r: Step)
    ensures r.Halted? <==> s.queue == [] && s.pushesLeft == 0
  {
    if s.queue != [] then
      var (p, rest) := Pop(d, s.queue);
      var low := if p.strength == Low then s.low + 1 else s.low;
      var high := if p.strength == High then s.high + 1 else s.high;
      match React(s.modules, p)
      case Crashed => Broke
      case Reacted(mods, out) => Moved(Sim(mods, rest + out, s.pushesLeft, low, high), [p], out, 0)
    else if s.pushesLeft > 0 then
      Moved(s.(queue := [ButtonPulse], pushesLeft := s.pushesLeft - 1), [], [ButtonPulse], 1)
    else
      Halted
  }

  /** One iteration adds one to exactly one counter per pulse taken out, and
      presses the button only on an empty queue, using up one press. */
  lemma NextCounts(d: Discipline, s: Sim)
    ensures var r := Next(d, s);
      r.Moved? ==>
        && r.next.low == s.low + CountStrength(r.popped, Low)
        && r.next.high == s.high + CountStrength(r.popped, High)
        && r.next.low + r.next.high == s.low + s.high + |r.popped|
        && (r.pressed == 1 <==> s.queue == []) && r.pressed <= 1
        && s.pushesLeft == r.next.pushesLeft + r.pressed
  {
    if s.queue != [] {
      var p := Pop(d, s.queue).0;
      assert CountStrength([p], Low) == CountStrength([], Low) + (if p.strength == Low then 1 else 0);
      assert CountStrength([p], High) == CountStrength([], High) + (if p.strength == High then 1 else 0);
    }
  }

  lemma NextPopped(d: Discipline, s: Sim)
    requires s.queue != [] && Next(d, s).Moved?
    ensures var pr := Pop(d, s.queue); var re := React(s.modules, pr.0);
      re.Reacted? && Next(d, s).popped == [pr.0] && Next(d, s).sent == re.out && Next(d, s).next.queue == pr.1 + re.out
  {
  }

  lemma QueueShuffle(q: seq<Pulse>, p: Pulse, rest: seq<Pulse>, out: seq<Pulse>)
    requires multiset(q) == multiset(rest) + multiset{p}
    ensures multiset(q + out) == multiset([p] + (rest + out))
  {
    calc {
      multiset(q + out);
      multiset(q) + multiset(out);
      multiset(rest) + multiset{p} + multiset(out);
      multiset([p] + (rest + out));
    }
  }

  /** One iteration loses no pulse and makes none up. */
  lemma NextDelivers(d: Discipline, s: Sim)
    ensures var r := Next(d, s);
      r.Moved? ==> multiset(s.queue + r.sent) == multiset(r.popped + r.next.queue)
  {
    var r := Next(d, s);
    if r.Moved? && s.queue != [] {
      NextPopped(d, s);
      var pr := Pop(d, s.queue);
      PopMultiset(d, s.queue);
      QueueShuffle(s.queue, pr.0, pr.1, r.sent);
    }
  }

  lemma NextPressed(d: Discipline, s: Sim)
    requires s.queue == [] && Next(d, s).Moved?
    ensures Next(d, s).popped == [] && Next(d, s).sent == [ButtonPulse] && Next(d, s).next.queue == [ButtonPulse]
  {
  }

  /** With a first-in first-out queue one iteration also keeps the order. */
  lemma NextFifo(d: Discipline, s: Sim)
    requires d == Fifo
    ensures var r := Next(d, s);
      r.Moved? ==> s.queue + r.sent == r.popped + r.next.queue
  {
    var r := Next(d, s);
    if r.Moved? {
      if s.queue != [] {
        NextPopped(d, s);
        var pr := Pop(d, s.queue);
        assert s.queue == [pr.0] + pr.1;
        var out := r.sent;
        assert ([pr.0] + pr.1) + out == [pr.0] + (pr.1 + out);
      } else {
        NextPressed(d, s);
      }
    }
  }

  /** How a run ended. A finished run also reports, for the proofs, all the
      pulses in the order they were taken out (`popped`) and in the order
      they were queued (`sent`), and the number of presses. */
  datatype Run = Finished(modules: map<Label, Module>, low: nat, high: nat, popped: seq<Pulse>, sent: seq<Pulse>, presses: nat)
               | Crash
               | OutOfFuel

  /** The loop of `push_button`, one iteration per unit of fuel. */
  function Simulate(d: Discipline, s: Sim, fuel: nat): (r: Run)
    decreases fuel
  {
    if fuel == 0 then OutOfFuel
    else
      match Next(d, s)
      case Halted => Finished(s.modules, s.low, s.high, [], [], 0)
      case Broke => Crash
      case Moved(n, popped, sent, pressed) =>
        Extend(popped, sent, pressed, Simulate(d, n, fuel - 1))
  }

  /** A finished rest of a run, preceded by one iteration's pulses and presses. */
  function Extend(popped: seq<Pulse>, sent: seq<Pulse>, pressed: nat, r: Run): (e: Run)
    ensures e.Finished? <==> r.Finished?
  {
    if r.Finished? then r.(popped := popped + r.popped, sent := sent + r.sent, presses := pressed + r.presses) else r
  }

  /** One unfolding of `Simulate` after a move. */
  lemma SimulateMoved(d: Discipline, s: Sim, fuel: nat)
    requires fuel > 0 && Next(d, s).Moved?
    ensures var st := Next(d, s); var r' := Simulate(d, st.next, fuel - 1);
      Simulate(d, s, fuel) == Extend(st.popped, st.sent, st.pressed, r')
  {
  }

  /** What `push_button` can observe of a run. */
  datatype Outcome = Done(modules: map<Label, Module>, low: nat, high: nat) | Failed | Exhausted

  function Observe(r: Run): Outcome
  {
    match r
    case Finished(m, lo, hi, _, _, _) => Done(m, lo, hi)
    case Crash => Failed
    case OutOfFuel => Exhausted
  }

  /** What one iteration does to the observable outcome of the rest of a run. */
  lemma SimulateStep(d: Discipline, s: Sim, fuel: nat)
    requires fuel > 0
    ensures Observe(Simulate(d, s, fuel)) ==
      match Next(d, s)
      case Halted => Done(s.modules, s.low, s.high)
      case Broke => Failed
      case Moved(n, _, _, _) => Observe(Simulate(d, n, fuel - 1))
  {
  }

  /** One iteration on a non-empty queue: pop, count, react. */
  lemma NextTakesOut(d: Discipline, s: Sim)
    requires s.queue != []
    ensures var (p, rest) := Pop(d, s.queue);
      var low := if p.strength == Low then s.low + 1 else s.low;
      var high := if p.strength == High then s.high + 1 else s.high;
      match React(s.modules, p)
      case Crashed => Next(d, s) == Broke
      case Reacted(mods, out) => Next(d, s) == Moved(Sim(mods, rest + out, s.pushesLeft, low, high), [p], out, 0)
  {
  }

  lemma {:induction false} CountStrengthAppend(xs: seq<Pulse>, ys: seq<Pulse>, s: Strength)
    ensures CountStrength(xs + ys, s) == CountStrength(xs, s) + CountStrength(ys, s)
    decreases |ys|
  {
    if ys == [] {
      assert xs + ys == xs;
    } else {
      var init := ys[..|ys| - 1];
      assert (xs + ys)[..|xs + ys| - 1] == xs + init;
      CountStrengthAppend(xs, init, s);
    }
  }

  /** Counting invariant: every pulse taken out adds one to exactly one of
      the two counters, so together they grow by the number of pulses taken
      out; and the button is pressed once for every press that was left. */
  lemma {:induction false} SimulateCounts(d: Discipline, s: Sim, fuel: nat)
    ensures Counted(s, Simulate(d, s, fuel))
    decreases fuel
  {
    if fuel > 0 && Next(d, s).Moved? {
      var st := Next(d, s);
      SimulateMoved(d, s, fuel);
      NextCounts(d, s);
      SimulateCounts(d, st.next, fuel - 1);
      CountsSplice(s, st, Simulate(d, st.next, fuel - 1), Simulate(d, s, fuel));
    }
  }

  /** The counters of a run that starts in `s`. */
  predicate Counted(s: Sim, r: Run)
  {
    r.Finished? ==>
      && r.low == s.low + CountStrength(r.popped, Low)
      && r.high == s.high + CountStrength(r.popped, High)
      && r.low + r.high == s.low + s.high + |r.popped|
      && r.presses == s.pushesLeft
  }

  /** The inductive step of `SimulateCounts`, on the pieces of a run. */
  lemma CountsSplice(s: Sim, st: Step, r': Run, r: Run)
    requires st.Moved?
    requires st.next.low == s.low + CountStrength(st.popped, Low)
    requires st.next.high == s.high + CountStrength(st.popped, High)
    requires st.next.low + st.next.high == s.low + s.high + |st.popped|
    requires s.pushesLeft == st.next.pushesLeft + st.pressed
    requires Counted(st.next, r')
    requires r == Extend(st.popped, st.sent, st.pressed, r')
    ensures Counted(s, r)
  {
    if r'.Finished? {
      CountStrengthAppend(st.popped, r'.popped, Low);
      CountStrengthAppend(st.popped, r'.popped, High);
    }
  }

  /** Chaining two stretches of a run: what the first leaves queued, the
      second takes out. */
  lemma SpliceMultiset(q: seq<Pulse>, sent: seq<Pulse>, popped: seq<Pulse>, q': seq<Pulse>, sent': seq<Pulse>, popped': seq<Pulse>)
    requires multiset(q + sent) == multiset(popped + q')
    requires multiset(popped') == multiset(q' + sent')
    ensures multiset(popped + popped') == multiset(q + (sent + sent'))
  {
    calc {
      multiset(popped + popped');
      multiset(popped) + multiset(q') + multiset(sent');
      multiset(popped + q') + multiset(sent');
      multiset(q + sent) + multiset(sent');
      multiset(q + (sent + sent'));
    }
  }

  lemma SpliceOrder(q: seq<Pulse>, sent: seq<Pulse>, popped: seq<Pulse>, q': seq<Pulse>, sent': seq<Pulse>, popped': seq<Pulse>)
    requires q + sent == popped + q'
    requires popped' == q' + sent'
    ensures popped + popped' == q + (sent + sent')
  {
    calc {
      popped + popped';
      popped + (q' + sent');
      (popped + q') + sent';
      (q + sent) + sent';
      q + (sent + sent');
    }
  }

  /** A finished run took out exactly the pulses `q` held and those it sent. */
  predicate Delivered(q: seq<Pulse>, r: Run)
  {
    r.Finished? ==> multiset(r.popped) == multiset(q + r.sent)
  }

  /** The inductive step of `SimulateDeliversAll`, on the pieces of a run. */
  lemma DeliversSplice(q: seq<Pulse>, st: Step, r': Run, r: Run)
    requires st.Moved? && multiset(q + st.sent) == multiset(st.popped + st.next.queue)
    requires Delivered(st.next.queue, r')
    requires r == Extend(st.popped, st.sent, st.pressed, r')
    ensures Delivered(q, r)
  {
    if r'.Finished? {
      SpliceMultiset(q, st.sent, st.popped, st.next.queue, r'.sent, r'.popped);
    }
  }

  /** Every queued pulse is delivered exactly once: a finished run takes out
      exactly the pulses that were waiting plus those queued later. */
  lemma {:induction false} SimulateDeliversAll(d: Discipline, s: Sim, fuel: nat)
    ensures Delivered(s.queue, Simulate(d, s, fuel))
    decreases fuel
  {
    var moved, st, r' := DeliversStep(d, s, fuel);
    if moved {
      SimulateDeliversAll(d, st.next, fuel - 1);
      DeliversSplice(s.queue, st, r', Simulate(d, s, fuel));
    }
  }

  /** Either the run delivers nothing, or it is one iteration `st` that
      loses no pulse followed by the run `r'`. */
  lemma DeliversStep(d: Discipline, s: Sim, fuel: nat) returns (moved: bool, st: Step, r': Run)
    ensures !moved ==> Delivered(s.queue, Simulate(d, s, fuel))
    ensures moved ==> fuel > 0 && st.Moved? && r' == Simulate(d, st.next, fuel - 1)
    ensures moved ==> multiset(s.queue + st.sent) == multiset(st.popped + st.next.queue)
    ensures moved ==> Simulate(d, s, fuel) == Extend(st.popped, st.sent, st.pressed, r')
  {
    moved := fuel > 0 && Next(d, s).Moved?;
    st := Next(d, s);
    r' := OutOfFuel;
    if moved {
      r' := Simulate(d, st.next, fuel - 1);
      SimulateMoved(d, s, fuel);
      NextDelivers(d, s);
    }
  }

  /** With a first-in first-out queue a finished run takes the pulses out in
      exactly the order they were queued. */
  lemma {:induction false} SimulateInOrder(d: Discipline, s: Sim, fuel: nat)
    requires d == Fifo
    ensures var r := Simulate(d, s, fuel);
      r.Finished? ==> r.popped == s.queue + r.sent
    decreases fuel
  {
    if fuel > 0 && Next(d, s).Moved? {
      var st := Next(d, s);
      var r' := Simulate(d, st.next, fuel - 1);
      SimulateMoved(d, s, fuel);
      NextFifo(d, s);
      SimulateInOrder(d, st.next, fuel - 1);
      if r'.Finished? {
        SpliceOrder(s.queue, st.sent, st.popped, st.next.queue, r'.sent, r'.popped);
      }
    }
  }

  /** The wiring invariant: every conjunction remembers exactly the modules
      that send to it. */
  predicate MemoryMatchesWiring(mods: map<Label, Module>)
  {
    forall l :: l in mods && mods[l].category == Conjunction ==> mods[l].memory.Keys == Feeders(mods, l)
  }

  /** Every queued pulse bound for a conjunction comes from one of its feeders. */
  predicate QueueFromFeeders(mods: map<Label, Module>, q: seq<Pulse>)
  {
    forall p :: p in q && p.receiver in mods && mods[p.receiver].category == Conjunction ==>
      p.sender in Feeders(mods, p.receiver)
  }

  /** One iteration keeps the wiring invariant. */
  lemma NextKeepsMemoryKeys(d: Discipline, s: Sim)
    requires MemoryMatchesWiring(s.modules) && QueueFromFeeders(s.modules, s.queue)
    requires "broadcaster" in s.modules ==> s.modules["broadcaster"].category != Conjunction
    ensures var r := Next(d, s);
      r.Moved? ==>
        && r.next.modules.Keys == s.modules.Keys
        && (forall l :: l in s.modules ==> r.next.modules[l].category == s.modules[l].category)
        && MemoryMatchesWiring(r.next.modules) && QueueFromFeeders(r.next.modules, r.next.queue)
  {
    var r := Next(d, s);
    if r.Moved? && s.queue != [] {
      var (p, rest) := Pop(d, s.queue);
      PopMembers(d, s.queue);
      NextPopped(d, s);
      ReactKeepsWiring(s.modules, p);
      var re := React(s.modules, p);
      QueueFromFeedersKept(s.modules, re.modules, s.queue, rest);
      QueueFromFeedersAppend(re.modules, rest, re.out);
    }
  }

  /** A reaction to a pulse from a feeder keeps the wiring invariant, and
      every pulse it sends comes from a feeder of its receiver. */
  lemma ReactKeepsWiring(mods: map<Label, Module>, p: Pulse)
    requires MemoryMatchesWiring(mods) && QueueFromFeeders(mods, [p])
    ensures var r := React(mods, p);
      r.Reacted? ==>
        && r.modules.Keys == mods.Keys
        && (forall l :: l in mods ==> r.modules[l].category == mods[l].category && r.modules[l].links == mods[l].links)
        && MemoryMatchesWiring(r.modules) && QueueFromFeeders(r.modules, r.out)
  {
    var r := React(mods, p);
    ReactFrame(mods, p);
    if r.Reacted? {
      assert forall l :: Feeders(r.modules, l) == Feeders(mods, l);
      assert p in [p];
    }
  }

  /** Pulses still queued keep coming from feeders when the wiring is kept. */
  lemma QueueFromFeedersKept(mods: map<Label, Module>, mods': map<Label, Module>, q: seq<Pulse>, rest: seq<Pulse>)
    requires QueueFromFeeders(mods, q) && forall x :: x in rest ==> x in q
    requires mods'.Keys == mods.Keys
    requires forall l :: l in mods ==> mods'[l].category == mods[l].category && mods'[l].links == mods[l].links
    ensures QueueFromFeeders(mods', rest)
  {
    assert forall l :: Feeders(mods', l) == Feeders(mods, l);
  }

  lemma QueueFromFeedersAppend(mods: map<Label, Module>, a: seq<Pulse>, b: seq<Pulse>)
    requires QueueFromFeeders(mods, a) && QueueFromFeeders(mods, b)
    ensures QueueFromFeeders(mods, a + b)
  {
  }

  /** The wiring invariant survives a whole run (when the broadcaster is not
      itself a conjunction, which would make it record the button): a
      conjunction's memory never gains or loses a key. */
  lemma {:induction false} SimulateKeepsMemoryKeys(d: Discipline, s: Sim, fuel: nat)
    requires MemoryMatchesWiring(s.modules) && QueueFromFeeders(s.modules, s.queue)
    requires "broadcaster" in s.modules ==> s.modules["broadcaster"].category != Conjunction
    ensures var r := Simulate(d, s, fuel);
      r.Finished? ==> r.modules.Keys == s.modules.Keys && MemoryMatchesWiring(r.modules)
    decreases fuel
  {
    if fuel > 0 && Next(d, s).Moved? {
      NextKeepsMemoryKeys(d, s);
      SimulateMoved(d, s, fuel);
      SimulateKeepsMemoryKeys(d, Next(d, s).next, fuel - 1);
    }
  }

  /** The number of presses `push_button` makes. */
  const Presses: nat := 1000

  /** The module table of part one, updated in place as pulses arrive. */
  class Network {
    var modules: map<Label, Module>

    constructor (lines: seq<Line>)
      requires NamesNonEmpty(lines)
      ensures modules == Parse(lines)
    {
      modules := Parse(lines);
    }

    /** `process_signal`: reacts to one pulse, updating the receiver in place. */
    method ProcessSignal(p: Pulse) returns (out: seq<Pulse>, crashed: bool)
      modifies this
      ensures React(old(modules), p) == if crashed then Crashed else Reacted(modules, out)
      ensures crashed ==> modules == old(modules)
    {
      out, crashed := [], false;
      if p.receiver !in modules {
        return;
      }
      var m := modules[p.receiver];
      match m.category
      case Broadcaster =>
        out := Send(p.receiver, p.strength, m.links);
      case FlipFlop =>
        if p.strength == High {
          return;
        }
        var now := !m.on;
        modules := modules[p.receiver := m.(on := now)];
        out := Send(p.receiver, if now then High else Low, m.links);
      case Conjunction =>
        var memory := m.memory[p.sender := p.strength];
        modules := modules[p.receiver := m.(memory := memory)];
        out := Send(p.receiver, if AllHigh(memory) then Low else High, m.links);
      case Untyped =>
        crashed := true;
    }

    /** `push_button`: presses the button 1000 times, each time only once the
        queue is empty, and returns the product of the low and high counts.
        `fuel` bounds the number of loop iterations. */
    method PushButton(d: Discipline, fuel: nat) returns (outcome: Outcome, answer: int)
      modifies this
      ensures outcome == Observe(Simulate(d, Sim(old(modules), [], Presses, 0, 0), fuel))
      ensures outcome.Done? ==> modules == outcome.modules && answer == outcome.low * outcome.high
    {
      ghost var start := Sim(modules, [], Presses, 0, 0);
      var queue: seq<Pulse> := [];
      var pushesLeft := Presses;
      var low, high := 0, 0;
      var n := fuel;
      answer := 0;
      while n > 0
        invariant Observe(Simulate(d, Sim(modules, queue, pushesLeft, low, high), n)) == Observe(Simulate(d, start, fuel))
      {
        ghost var s := Sim(modules, queue, pushesLeft, low, high);
        SimulateStep(d, s, n);
        if queue != [] {
          var (p, rest) := Pop(d, queue);
          if p.strength == Low {
            low := low + 1;
          } else {
            high := high + 1;
          }
          var out, crashed := ProcessSignal(p);
          NextTakesOut(d, s);
          if crashed {
            return Failed, 0;
          }
          queue := rest + out;
          assert Next(d, s) == Moved(Sim(modules, queue, pushesLeft, low, high), [p], out, 0);
        } else if pushesLeft > 0 {
          pushesLeft := pushesLeft - 1;
          queue := [ButtonPulse];
          assert Next(d, s) == Moved(Sim(modules, queue, pushesLeft, low, high), [], [ButtonPulse], 1);
        } else {
          assert Next(d, s) == Halted;
          return Done(modules, low, high), low * high;
        }
        n := n - 1;
      }
      outcome := Exhausted;
    }
  }

  /** The loop that pushes one pulse per link, as `heappush` onto the list of
      new signals. */
  method Send(sender: Label, s: Strength, links: seq<Label>) returns (out: seq<Pulse>)
    ensures out == Emit(sender, s, links)
  {
    out := [];
    for k := 0 to |links|
      invariant out == Emit(sender, s, links[..k])
    {
      out := out + [Pulse(sender, s, links[k])];
    }
    assert links[..|links|] == links;
  }
}
