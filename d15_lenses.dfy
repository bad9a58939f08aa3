/** Day 15, part two (D15/d15p2.py): the HASH algorithm and the HASHMAP
    procedure that inserts and removes labelled lenses in 256 boxes. */
module Lenses {

  import opened Wrappers
  import opened Text

  /** The HASH of a string: for each character, add its code, multiply by 17
      and keep the remainder modulo 256. */
  function Hash(s: string): (h: nat)
    ensures h < 256
  {
    if s == [] then 0 else ((Hash(s[..|s| - 1]) + s[|s| - 1] as int) * 17) % 256
  }

  /** One more character moves the HASH by one step from the HASH so far. */
  lemma HashSnoc(s: string, c: char)
    ensures Hash(s + [c]) == ((Hash(s) + c as int) * 17) % 256
  {
    assert (s + [c])[..|s|] == s;
  }

  /** The HASH of the empty string is 0, and the worked example is right. */
  lemma HashExamples()
    ensures Hash("") == 0
    ensures Hash("HASH") == 52
    ensures Hash("rn") == 0 && Hash("cm") == 0 && Hash("qp") == 1
  {
    assert "HASH"[..3] == "HAS" && "HAS"[..2] == "HA" && "HA"[..1] == "H" && "H"[..0] == "";
    assert Hash("H") == 200;
    assert Hash("HA") == 153;
    assert Hash("HAS") == 172;
    assert "rn"[..1] == "r" && "cm"[..1] == "c" && "qp"[..1] == "q";
  }

  /** `convert_to_ascii`. */
  method ConvertToAscii(segment: string) returns (v: nat)
    ensures v == Hash(segment)
  {
    v := 0;
    for k := 0 to |segment|
      invariant v == Hash(segment[..k])
    {
      HashSnoc(segment[..k], segment[k]);
      assert segment[..k + 1] == segment[..k] + [segment[k]];
      v := ((v + segment[k] as int) * 17) % 256;
    }
    assert segment[..|segment|] == segment;
  }

  datatype Op = Remove | Insert

  /** A parsed step. A removal carries the focal length of the most recent
      insertion, which the source leaves in its loop variable. */
  datatype Step = Step(op: Op, lens: string, box: nat, focal: string)

  /** One step of `parse_instructions`. `None` is the source's error: an
      insertion that does not split into exactly two parts at `=`, or a
      removal before any insertion, whose record would read an unbound focal
      length. */
  function ParseStep(instruction: string, lastFocal: Option<string>): Option<Step>
  {
    if '-' in instruction then
      if lastFocal.None? then None
      else
        var lens := Before(instruction, '-');
        Some(Step(Remove, lens, Hash(lens), lastFocal.value))
    else if Occurrences(instruction, '=') != 1 then None
    else
      OccurrencesIn(instruction, '=');
      var lens := Before(instruction, '=');
      Some(Step(Insert, lens, Hash(lens), After(instruction, '=')))
  }

  /** A parsed step reads back as its instruction: a removal's label is what
      precedes the first `-`; an insertion is `label=focal` with no other
      `=`. Both carry the label's HASH as their box. */
  lemma ParseStepShape(instruction: string, lastFocal: Option<string>)
    ensures var r := ParseStep(instruction, lastFocal);
      && (r.None? <==> ('-' in instruction && lastFocal.None?) || ('-' !in instruction && Occurrences(instruction, '=') != 1))
      && (r.Some? ==> r.value.box == Hash(r.value.lens) < 256)
      && (r.Some? && r.value.op == Remove ==>
            '-' in instruction && '-' !in r.value.lens && exists rest :: instruction == r.value.lens + "-" + rest)
      && (r.Some? && r.value.op == Insert ==>
            instruction == r.value.lens + "=" + r.value.focal && '=' !in r.value.lens && '=' !in r.value.focal)
  {
    var r := ParseStep(instruction, lastFocal);
    if r.Some? && r.value.op == Remove {
      var rest := After(instruction, '-');
      assert instruction == r.value.lens + "-" + rest;
    }
    if r.Some? && r.value.op == Insert {
      OccurrencesAfter(instruction, '=');
      var f := After(instruction, '=');
      if '=' in f {
        OccurrencesAfter(f, '=');
      }
    }
  }

  /** `parse_instructions` as a fold that threads the last focal length. */
  function ParseAll(instructions: seq<string>, lastFocal: Option<string>): Option<seq<Step>>
  {
    if instructions == [] then Some([])
    else
      match ParseStep(instructions[0], lastFocal)
      case None => None
      case Some(step) =>
        match ParseAll(instructions[1..], Some(step.focal))
        case None => None
        case Some(rest) => Some([step] + rest)
  }

  /** `done` followed by the steps of `rest`, or the error. */
  function Prepend(done: seq<Step>, rest: Option<seq<Step>>): Option<seq<Step>>
  {
    if rest.None? then None else Some(done + rest.value)
  }

  /** Parsing gives one step per instruction; every step's box is its
      label's HASH, and a removal carries the focal length of the step
      before it. */
  lemma {:induction false} ParseAllSteps(instructions: seq<string>, lastFocal: Option<string>)
    ensures var r := ParseAll(instructions, lastFocal);
      r.Some? ==>
        && |r.value| == |instructions|
        && (forall k :: 0 <= k < |r.value| ==> r.value[k].box == Hash(r.value[k].lens))
        && (forall k :: 0 < k < |r.value| && r.value[k].op == Remove ==> r.value[k].focal == r.value[k - 1].focal)
        && (|r.value| > 0 && r.value[0].op == Remove ==> lastFocal == Some(r.value[0].focal))
  {
    if instructions != [] {
      var step := ParseStep(instructions[0], lastFocal);
      if step.Some? {
        ParseAllSteps(instructions[1..], Some(step.value.focal));
      }
    }
  }

  /** The loop of `parse_instructions`. */
  method ParseInstructions(instructions: seq<string>) returns (r: Option<seq<Step>>)
    ensures r == ParseAll(instructions, None)
  {
    var parsed: seq<Step> := [];
    var lastFocal: Option<string> := None;
    assert instructions[0..] == instructions;
    var all := ParseAll(instructions, None);
    assert all.Some? ==> [] + all.value == all.value;
    for k := 0 to |instructions|
      invariant ParseAll(instructions, None) == Prepend(parsed, ParseAll(instructions[k..], lastFocal))
    {
      var step := ParseStep(instructions[k], lastFocal);
      if step.None? {
        return None;
      }
      assert instructions[k..][1..] == instructions[k + 1..];
      assert instructions[k..][0] == instructions[k];
      var later := ParseAll(instructions[k + 1..], Some(step.value.focal));
      assert ParseAll(instructions[k..], lastFocal) == if later.None? then None else Some([step.value] + later.value);
      if later.Some? {
        assert parsed + ([step.value] + later.value) == (parsed + [step.value]) + later.value;
      }
      parsed := parsed + [step.value];
      lastFocal := Some(step.value.focal);
    }
    assert instructions[|instructions|..] == [];
    assert parsed + [] == parsed;
    r := Some(parsed);
  }

  type Boxes = seq<Option<seq<string>>>

  /** The position of the first occurrence of `x`. */
  function IndexOf(ls: seq<string>, x: string): (i: nat)
    requires x in ls
    ensures i < |ls| && ls[i] == x && x !in ls[..i]
  {
    if ls[0] == x then 0
    else
      var i := IndexOf(ls[1..], x) + 1;
      assert ls[..i] == [ls[0]] + ls[1..][..i - 1];
      i
  }

  /** `list.remove`: drops the first occurrence. */
  function RemoveFirst(ls: seq<string>, x: string): seq<string>
    requires x in ls
  {
    var i := IndexOf(ls, x);
    ls[..i] + ls[i + 1..]
  }

  /** One step of `process_instructions` on the boxes and the label-to-focal
      table. */
  function Apply(boxes: Boxes, focal: map<string, string>, s: Step): (r: (Boxes, map<string, string>))
    requires s.box < |boxes|
  {
    match s.op
    case Remove =>
      (match boxes[s.box]
       case None => (boxes, focal)
       case Some(ls) =>
         if s.lens in ls then
           var rest := RemoveFirst(ls, s.lens);
           (boxes[s.box := if rest == [] then None else Some(rest)], focal)
         else (boxes, focal))
    case Insert =>
      (match boxes[s.box]
       case None => (boxes[s.box := Some([s.lens])], focal[s.lens := s.focal])
       case Some(ls) =>
         if s.lens in ls then (boxes, focal[s.lens := s.focal])
         else (boxes[s.box := Some(ls + [s.lens])], focal[s.lens := s.focal]))
  }

  /** The steps one after the other. */
  function ApplyAll(boxes: Boxes, focal: map<string, string>, steps: seq<Step>): (r: (Boxes, map<string, string>))
    requires forall k :: 0 <= k < |steps| ==> steps[k].box < |boxes|
    ensures |r.0| == |boxes|
  {
    if steps == [] then (boxes, focal)
    else
      var prev := ApplyAll(boxes, focal, steps[..|steps| - 1]);
      ApplyFrame(prev.0, prev.1, steps[|steps| - 1]);
      Apply(prev.0, prev.1, steps[|steps| - 1])
  }

  /** `-` takes the label out of its box if it is there (keeping the others
      in order, emptying the box to `None`), else changes nothing; `=`
      updates the focal length in place if the label is there, else adds it
      at the back (or as the only lens of an empty box). No other box is
      touched, and the table changes only at the label of an insertion. */
  lemma ApplyFrame(boxes: Boxes, focal: map<string, string>, s: Step)
    requires s.box < |boxes|
    ensures var r := Apply(boxes, focal, s);
      && |r.0| == |boxes|
      && (forall b :: 0 <= b < |boxes| && b != s.box ==> r.0[b] == boxes[b])
      && (s.op == Remove ==> r.1 == focal)
      && (s.op == Remove && (boxes[s.box].None? || s.lens !in boxes[s.box].value) ==> r.0 == boxes)
      && (s.op == Remove && boxes[s.box].Some? && s.lens in boxes[s.box].value ==>
            var ls := boxes[s.box].value;
            var i := IndexOf(ls, s.lens);
            r.0[s.box] == (if |ls| == 1 then None else Some(ls[..i] + ls[i + 1..])))
      && (s.op == Insert ==> r.1 == focal[s.lens := s.focal])
      && (s.op == Insert && boxes[s.box].None? ==> r.0[s.box] == Some([s.lens]))
      && (s.op == Insert && boxes[s.box].Some? && s.lens in boxes[s.box].value ==> r.0 == boxes)
      && (s.op == Insert && boxes[s.box].Some? && s.lens !in boxes[s.box].value ==>
            r.0[s.box] == Some(boxes[s.box].value + [s.lens]))
  {
  }

  /** A box's lenses as the procedure keeps them: at least one, each in the
      box of its label's HASH with a focal length that reads as a number,
      and no label twice. */
  predicate BoxWellFormed(b: nat, ls: seq<string>, focal: map<string, string>)
  {
    && ls != []
    && (forall i :: 0 <= i < |ls| ==> Hash(ls[i]) == b && ls[i] in focal && Decimal(focal[ls[i]]).Some?)
    && (forall i, j :: 0 <= i < j < |ls| ==> ls[i] != ls[j])
  }

  /** What the procedure maintains: every box is `None` or well formed. */
  predicate WellFormed(boxes: Boxes, focal: map<string, string>)
  {
    forall b :: 0 <= b < |boxes| && boxes[b].Some? ==> BoxWellFormed(b, boxes[b].value, focal)
  }

  /** A step read from the input: its box is its label's HASH and an
      insertion's focal length reads as a number. */
  predicate StepValid(s: Step)
  {
    s.box == Hash(s.lens) && (s.op == Insert ==> Decimal(s.focal).Some?)
  }

  lemma RemoveKeepsBox(b: nat, ls: seq<string>, lens: string, focal: map<string, string>)
    requires BoxWellFormed(b, ls, focal) && lens in ls && |ls| > 1
    ensures BoxWellFormed(b, RemoveFirst(ls, lens), focal) && lens !in RemoveFirst(ls, lens)
  {
    var i := IndexOf(ls, lens);
    var rest := ls[..i] + ls[i + 1..];
    assert forall k :: 0 <= k < |rest| ==> rest[k] == ls[Skip(k, i)];
    forall k, m | 0 <= k < m < |rest| ensures rest[k] != rest[m] {
      assert Skip(k, i) < Skip(m, i);
    }
    forall k | 0 <= k < |rest| ensures rest[k] != lens {
      assert Skip(k, i) != i;
    }
  }

  /** The position in a list of the `k`th element left after removing
      position `i`. */
  function Skip(k: nat, i: nat): nat
  {
    if k < i then k else k + 1
  }

  lemma InsertKeepsBox(b: nat, ls: seq<string>, lens: string, f: string, focal: map<string, string>)
    requires ls == [] || BoxWellFormed(b, ls, focal)
    requires lens !in ls && Hash(lens) == b && Decimal(f).Some?
    ensures BoxWellFormed(b, ls + [lens], focal[lens := f])
  {
  }

  lemma RefocusKeepsBox(b: nat, ls: seq<string>, lens: string, f: string, focal: map<string, string>)
    requires BoxWellFormed(b, ls, focal) && Decimal(f).Some?
    ensures BoxWellFormed(b, ls, focal[lens := f])
  {
  }

  /** Every step keeps the procedure's invariant, and afterwards a removed
      label is absent from its box and an inserted one present. */
  lemma ApplyKeepsWellFormed(boxes: Boxes, focal: map<string, string>, s: Step)
    requires |boxes| == 256 && WellFormed(boxes, focal) && StepValid(s)
    ensures var r := Apply(boxes, focal, s);
      && WellFormed(r.0, r.1)
      && (s.op == Remove ==> r.0[s.box].None? || s.lens !in r.0[s.box].value)
      && (s.op == Insert ==> r.0[s.box].Some? && s.lens in r.0[s.box].value)
  {
    var r := Apply(boxes, focal, s);
    var cur := boxes[s.box];
    if s.op == Remove {
      if cur.Some? && s.lens in cur.value && |cur.value| > 1 {
        RemoveKeepsBox(s.box, cur.value, s.lens, focal);
      }
    } else {
      forall b | 0 <= b < 256 && boxes[b].Some?
        ensures BoxWellFormed(b, boxes[b].value, focal[s.lens := s.focal])
      {
        RefocusKeepsBox(b, boxes[b].value, s.lens, s.focal, focal);
      }
      if cur.None? {
        InsertKeepsBox(s.box, [], s.lens, s.focal, focal);
        assert [] + [s.lens] == [s.lens];
      } else if s.lens !in cur.value {
        InsertKeepsBox(s.box, cur.value, s.lens, s.focal, focal);
      }
    }
  }

  /** A run of steps keeps the invariant. */
  lemma {:induction false} ApplyAllKeepsWellFormed(boxes: Boxes, focal: map<string, string>, steps: seq<Step>)
    requires |boxes| == 256 && WellFormed(boxes, focal)
    requires forall k :: 0 <= k < |steps| ==> StepValid(steps[k])
    ensures forall k :: 0 <= k < |steps| ==> steps[k].box < |boxes|
    ensures var r := ApplyAll(boxes, focal, steps); WellFormed(r.0, r.1)
  {
    if steps != [] {
      ApplyAllKeepsWellFormed(boxes, focal, steps[..|steps| - 1]);
      var prev := ApplyAll(boxes, focal, steps[..|steps| - 1]);
      ApplyKeepsWellFormed(prev.0, prev.1, steps[|steps| - 1]);
    }
  }

  /** The focusing power of the first `|lenses|` slots of box `b`, or `None`
      when a lens has no focal length that reads as a number. */
  function LensesPower(b: nat, lenses: seq<string>, focal: map<string, string>): Option<nat>
  {
    if lenses == [] then Some(0)
    else
      var last := lenses[|lenses| - 1];
      match LensesPower(b, lenses[..|lenses| - 1], focal)
      case None => None
      case Some(p) =>
        if last !in focal || Decimal(focal[last]).None? then None
        else Some(p + (b + 1) * |lenses| * Decimal(focal[last]).value)
  }

  /** `calculate_focusing_power` over the first `|boxes|` boxes. */
  function Power(boxes: Boxes, focal: map<string, string>): Option<nat>
  {
    if boxes == [] then Some(0)
    else
      var b := |boxes| - 1;
      match Power(boxes[..b], focal)
      case None => None
      case Some(p) =>
        match boxes[b]
        case None => Some(p)
        case Some(lenses) =>
          match LensesPower(b, lenses, focal)
          case None => None
          case Some(q) => Some(p + q)
  }

  /** Every lens contributes (box + 1) * (slot + 1) * focal length. */
  lemma {:induction false} LensesPowerSnoc(b: nat, lenses: seq<string>, lens: string, focal: map<string, string>)
    requires lens in focal && Decimal(focal[lens]).Some?
    requires LensesPower(b, lenses, focal).Some?
    ensures LensesPower(b, lenses + [lens], focal) ==
      Some(LensesPower(b, lenses, focal).value + (b + 1) * (|lenses| + 1) * Decimal(focal[lens]).value)
  {
    assert (lenses + [lens])[..|lenses|] == lenses;
  }

  /** On well-formed boxes the power is always defined. */
  lemma {:induction false} PowerDefined(boxes: Boxes, focal: map<string, string>)
    requires WellFormed(boxes, focal)
    ensures Power(boxes, focal).Some?
  {
    if boxes != [] {
      var b := |boxes| - 1;
      assert WellFormed(boxes[..b], focal) by {
        forall c | 0 <= c < b && boxes[..b][c].Some? ensures boxes[..b][c] == boxes[c] { }
      }
      PowerDefined(boxes[..b], focal);
      if boxes[b].Some? {
        LensesDefined(b, boxes[b].value, focal);
      }
    }
  }

  lemma {:induction false} LensesDefined(b: nat, lenses: seq<string>, focal: map<string, string>)
    requires forall i :: 0 <= i < |lenses| ==> lenses[i] in focal && Decimal(focal[lenses[i]]).Some?
    ensures LensesPower(b, lenses, focal).Some?
  {
    if lenses != [] {
      LensesDefined(b, lenses[..|lenses| - 1], focal);
    }
  }

  /** The facility: 256 boxes, each `None` or a list of labels, and the table
      of focal lengths by label. */
  class Facility {
    const boxes: array<Option<seq<string>>>
    var focal: map<string, string>

    constructor ()
      ensures boxes.Length == 256 && fresh(boxes)
      ensures forall b :: 0 <= b < 256 ==> boxes[b].None?
      ensures focal == map[]
    {
      boxes := new Option<seq<string>>[256](_ => None);
      focal := map[];
    }

    /** `process_instructions`: applies the steps in order, in place. */
    method ProcessInstructions(steps: seq<Step>)
      requires forall k :: 0 <= k < |steps| ==> steps[k].box < boxes.Length
      modifies this, boxes
      ensures (boxes[..], focal) == ApplyAll(old(boxes[..]), old(focal), steps)
    {
      for k := 0 to |steps|
        invariant (boxes[..], focal) == ApplyAll(old(boxes[..]), old(focal), steps[..k])
      {
        assert steps[..k + 1][..k] == steps[..k];
        var s := steps[k];
        ApplyFrame(boxes[..], focal, s);
        match s.op
        case Remove =>
          var current := boxes[s.box];
          if current.None? {
            continue;
          }
          if s.lens in current.value {
            var rest := RemoveFirst(current.value, s.lens);
            boxes[s.box] := if rest == [] then None else Some(rest);
          }
        case Insert =>
          var current := boxes[s.box];
          if current.None? {
            boxes[s.box] := Some([s.lens]);
            focal := focal[s.lens := s.focal];
            continue;
          }
          if s.lens in current.value {
            focal := focal[s.lens := s.focal];
            continue;
          }
          boxes[s.box] := Some(current.value + [s.lens]);
          focal := focal[s.lens := s.focal];
      }
      assert steps[..|steps|] == steps;
    }

    /** `calculate_focusing_power`. */
    method FocusingPower() returns (total: Option<nat>)
      ensures total == Power(boxes[..], focal)
    {
      var sum := 0;
      for b := 0 to boxes.Length
        invariant Power(boxes[..b], focal) == Some(sum)
      {
        assert boxes[..b + 1][..b] == boxes[..b];
        var current := boxes[b];
        if current.None? {
          continue;
        }
        var lenses := current.value;
        var inner := 0;
        for slot := 0 to |lenses|
          invariant LensesPower(b, lenses[..slot], focal) == Some(inner)
        {
          assert lenses[..slot + 1][..slot] == lenses[..slot];
          var lens := lenses[slot];
          if lens !in focal || Decimal(focal[lens]).None? {
            NoPowerAfter(b, lenses, slot + 1, focal);
            AnyPowerFails(boxes[..], b + 1, focal);
            return None;
          }
          inner := inner + (b + 1) * (slot + 1) * Decimal(focal[lens]).value;
        }
        assert lenses[..|lenses|] == lenses;
        sum := sum + inner;
      }
      assert boxes[..boxes.Length] == boxes[..];
      total := Some(sum);
    }
  }

  /** Once a prefix of a box has no power, no longer prefix has one. */
  lemma {:induction false} NoPowerAfter(b: nat, lenses: seq<string>, k: nat, focal: map<string, string>)
    requires k <= |lenses| && LensesPower(b, lenses[..k], focal).None?
    ensures LensesPower(b, lenses, focal).None?
    decreases |lenses| - k
  {
    if k < |lenses| {
      assert lenses[..k + 1][..k] == lenses[..k];
      NoPowerAfter(b, lenses, k + 1, focal);
    } else {
      assert lenses[..k] == lenses;
    }
  }

  /** Once the first `k` boxes have no power, all boxes have none. */
  lemma {:induction false} AnyPowerFails(boxes: Boxes, k: nat, focal: map<string, string>)
    requires 0 < k <= |boxes| && boxes[k - 1].Some? && LensesPower(k - 1, boxes[k - 1].value, focal).None?
    ensures Power(boxes, focal).None?
  {
    assert boxes[..k][..k - 1] == boxes[..k - 1];
    assert Power(boxes[..k], focal).None?;
    PowerPrefixNone(boxes, k, focal);
  }

  lemma {:induction false} PowerPrefixNone(boxes: Boxes, k: nat, focal: map<string, string>)
    requires k <= |boxes| && Power(boxes[..k], focal).None?
    ensures Power(boxes, focal).None?
    decreases |boxes| - k
  {
    if k < |boxes| {
      assert boxes[..k + 1][..k] == boxes[..k];
      PowerPrefixNone(boxes, k + 1, focal);
    } else {
      assert boxes[..k] == boxes;
    }
  }
}
