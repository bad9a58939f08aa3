/** Day 19, part two (D19/d19p2.py): how many rating combinations the
    workflows accept. From every rule that accepts, the solution walks
    back to the workflow `in`, narrowing one interval per rating letter:
    the accepting rule must hold and every earlier rule of each workflow
    on the way must fail. */
module Workflows {

  import opened Wrappers
  import opened Text
  import opened Arith

  const MinVal := 1
  const MaxVal := 4000

  /** An inclusive interval of ratings, `(min, max)`. */
  datatype Range = Range(lo: int, hi: int)

  /** The `intervals` dict: a range per rating letter. */
  type Box = map<char, Range>

  /** A part's ratings by letter. */
  type Part = map<char, int>

  /** One workflow line: its label and its rule strings. */
  datatype Workflow = Workflow(name: string, rules: seq<string>)

  /** `rule_dict`, in the order the workflows were read. */
  type RuleDict = seq<Workflow>

  /** The dict's keys, in insertion order. */
  const Letters: seq<char> := ['x', 'm', 'a', 's']

  /** Every interval starts as `[1, 4000]`. */
  function Unbounded(): (b: Box)
    ensures b.Keys == {'x', 'm', 'a', 's'}
    ensures forall c :: c in b ==> b[c] == Range(MinVal, MaxVal)
  {
    map['x' := Range(MinVal, MaxVal), 'm' := Range(MinVal, MaxVal),
        'a' := Range(MinVal, MaxVal), 's' := Range(MinVal, MaxVal)]
  }

  predicate InRange(v: int, r: Range)
  {
    r.lo <= v <= r.hi
  }

  /** The part lies in the box: each of the box's letters is rated
      within its range. */
  predicate InBox(p: Part, b: Box)
  {
    forall c :: c in b ==> c in p && InRange(p[c], b[c])
  }

  /** `b` has the letters of `a`, each range inside `a`'s. */
  predicate Within(b: Box, a: Box)
  {
    b.Keys == a.Keys && forall c :: c in a ==> a[c].lo <= b[c].lo && b[c].hi <= a[c].hi
  }

  lemma WithinTransitive(c: Box, b: Box, a: Box)
    requires Within(c, b) && Within(b, a)
    ensures Within(c, a)
  {
  }

  // Rule strings such as `a<2006:qkq`, `m>2090:A`, `rfg` or `A`.

  /** `rule.split(':')[0][2:]`: the digits of a comparison. */
  function ValueText(rule: string): string
  {
    var head := Before(rule, ':');
    if |head| >= 2 then head[2..] else []
  }

  /** The comparison a rule makes, when it is one: the rating letter,
      `<` or `>`, and the value that `int()` reads. */
  function Comparison(rule: string): (r: Option<(char, char, nat)>)
    ensures r.Some? ==> |rule| >= 2 && r.value.0 == rule[0] && r.value.1 == rule[1]
    ensures r.Some? <==> |rule| >= 2 && (rule[1] == '<' || rule[1] == '>') && Decimal(ValueText(rule)).Some?
  {
    if |rule| >= 2 && (rule[1] == '<' || rule[1] == '>') then
      match Decimal(ValueText(rule))
      case Some(v) => Some((rule[0], rule[1], v))
      case None => None
    else None
  }

  predicate Holds(op: char, x: int, v: int)
  {
    if op == '<' then x < v else x > v
  }

  /** The part passes the rule's comparison; a rule that is not a
      comparison passes nothing here. */
  predicate Passes(rule: string, p: Part)
  {
    match Comparison(rule)
    case None => false
    case Some((c, op, v)) => c in p && Holds(op, p[c], v)
  }

  // Narrowing one range.

  /** Rejecting `<v` raises the lower end to `v`; rejecting `>v` lowers
      the upper end to `v`. */
  function Rejected(r: Range, op: char, v: int): Range
  {
    if op == '<' then (if r.lo < v then Range(v, r.hi) else r)
    else if op == '>' then (if r.hi > v then Range(r.lo, v) else r)
    else r
  }

  /** The narrowing as `refine_intervals` writes it: accepting `<v` lowers
      the upper end to `v - 1` only when it is above `v`, accepting `>v`
      raises the lower end to `v + 1` only when it is below `v`. */
  function TightenedAsWritten(r: Range, op: char, v: int, reject: bool): Range
  {
    if reject then Rejected(r, op, v)
    else if op == '<' then (if r.hi > v then Range(r.lo, v - 1) else r)
    else if op == '>' then (if r.lo < v then Range(v + 1, r.hi) else r)
    else r
  }

  /** The narrowing as intended: an accepted comparison also holds when
      the range already ends at `v`. */
  function Tightened(r: Range, op: char, v: int, reject: bool): Range
  {
    if reject then Rejected(r, op, v)
    else if op == '<' then (if r.hi >= v then Range(r.lo, v - 1) else r)
    else if op == '>' then (if r.lo <= v then Range(v + 1, r.hi) else r)
    else r
  }

  /** The narrowed range holds exactly the ratings of the old range for
      which the comparison fails (rejecting) or holds (accepting). */
  lemma TightenedExact(r: Range, op: char, v: int, reject: bool, x: int)
    requires op == '<' || op == '>'
    ensures InRange(x, Tightened(r, op, v, reject)) <==> InRange(x, r) && Holds(op, x, v) != reject
  {
  }

  /** Narrowing never widens a range. */
  lemma TightenedNarrows(r: Range, op: char, v: int, reject: bool)
    ensures r.lo <= Tightened(r, op, v, reject).lo && Tightened(r, op, v, reject).hi <= r.hi
  {
  }

  /** The code as written differs from the intended narrowing exactly when
      an accepted comparison's range already ends at its value. */
  lemma AsWrittenDiffers(r: Range, op: char, v: int)
    ensures TightenedAsWritten(r, op, v, false) != Tightened(r, op, v, false)
      <==> (op == '<' && r.hi == v) || (op == '>' && r.lo == v)
  {
  }

  /** Accepting `x<4000` on `[1, 4000]` keeps 4000, which fails it. */
  lemma AsWrittenAcceptsBound()
    ensures TightenedAsWritten(Range(MinVal, MaxVal), '<', 4000, false) == Range(MinVal, MaxVal)
    ensures InRange(4000, Range(MinVal, MaxVal)) && !Holds('<', 4000, 4000)
    ensures Tightened(Range(MinVal, MaxVal), '<', 4000, false) == Range(MinVal, 3999)
  {
  }

  /** `refine_intervals` on the dict: `None` for the `IndexError` of a
      rule shorter than two characters, the `KeyError` of a letter that is
      not a rating, and the `ValueError` of `int()` on a comparison whose
      value is not digits. An operator other than `<` or `>` leaves the
      dict as it is. */
  function Refined(b: Box, rule: string, reject: bool): (r: Option<Box>)
    ensures r.Some? <==> |rule| >= 2 && rule[0] in b && ((rule[1] == '<' || rule[1] == '>') ==> Comparison(rule).Some?)
    ensures r.Some? ==> Within(r.value, b) && forall c :: c in b && c != rule[0] ==> r.value[c] == b[c]
  {
    if |rule| < 2 || rule[0] !in b then None
    else if rule[1] != '<' && rule[1] != '>' then Some(b)
    else
      match Comparison(rule)
      case None => None
      case Some((c, op, v)) =>
        TightenedNarrows(b[c], op, v, reject);
        Some(b[c := Tightened(b[c], op, v, reject)])
  }

  /** A refined box holds exactly the parts of the old box that fail the
      rule (rejecting) or pass it (accepting a comparison). */
  lemma RefinedExact(b: Box, rule: string, reject: bool, p: Part)
    requires Refined(b, rule, reject).Some?
    requires reject || Comparison(rule).Some?
    ensures InBox(p, Refined(b, rule, reject).value) <==> InBox(p, b) && Passes(rule, p) != reject
  {
    var b' := Refined(b, rule, reject).value;
    match Comparison(rule)
    case None =>
      assert b' == b;
    case Some((c, op, v)) =>
      if InBox(p, b') {
        forall d | d in b ensures d in p && InRange(p[d], b[d]) {
          if d == c {
            TightenedExact(b[c], op, v, reject, p[c]);
          }
        }
        TightenedExact(b[c], op, v, reject, p[c]);
      }
      if InBox(p, b) && Passes(rule, p) != reject {
        TightenedExact(b[c], op, v, reject, p[c]);
      }
  }

  /** The `intervals` dict that `refine_intervals` updates in place. */
  class Intervals {
    var ranges: Box

    constructor ()
      ensures ranges == Unbounded()
    {
      ranges := Unbounded();
    }

    /** `refine_intervals(rule, intervals, reject)`; `ok` is false where
        the source raises. */
    method Refine(rule: string, reject: bool) returns (ok: bool)
      modifies this
      ensures ok <==> Refined(old(ranges), rule, reject).Some?
      ensures ranges == if ok then Refined(old(ranges), rule, reject).value else old(ranges)
    {
      if |rule| < 2 || rule[0] !in ranges {
        return false;
      }
      var letter, op := rule[0], rule[1];
      var lo: int, hi: int := ranges[letter].lo, ranges[letter].hi;
      if op == '<' || op == '>' {
        var value := Decimal(ValueText(rule));
        if value.None? {
          return false;
        }
        var v: int := value.value;
        if reject {
          if op == '<' && lo < v {
            lo := v;
          }
          if op == '>' && hi > v {
            hi := v;
          }
        } else {
          if op == '<' && hi >= v {
            hi := v - 1;
          }
          if op == '>' && lo <= v {
            lo := v + 1;
          }
        }
      }
      ranges := ranges[letter := Range(lo, hi)];
      ok := true;
    }

    /** The loop over `range(rule_id - 1, -1, -1)`: refine each earlier
        rule as rejected, last first. */
    method RejectEarlier(rules: seq<string>, id: nat) returns (ok: bool)
      requires id <= |rules|
      modifies this
      ensures ok <==> RejectBefore(old(ranges), rules, id).Some?
      ensures ok ==> ranges == RejectBefore(old(ranges), rules, id).value
    {
      ghost var goal := RejectBefore(ranges, rules, id);
      for j := id downto 0
        invariant RejectBefore(ranges, rules, j) == goal
      {
        RejectBeforeStep(ranges, rules, j + 1);
        ok := Refine(rules[j], true);
        if !ok {
          return;
        }
      }
      ok := true;
    }
  }

  // Looking up workflows.

  /** `rule_dict[key]`; `None` for the `KeyError`. */
  function Lookup(d: RuleDict, key: string): (r: Option<seq<string>>)
    ensures r.Some? <==> exists i :: 0 <= i < |d| && d[i].name == key
    ensures r.Some? ==> exists i :: 0 <= i < |d| && d[i] == Workflow(key, r.value)
  {
    if d == [] then None
    else if d[0].name == key then Some(d[0].rules)
    else
      var r := Lookup(d[1..], key);
      assert forall i :: 0 < i < |d| ==> d[i] == d[1..][i - 1];
      r
  }

  /** `rule.endswith(':' + key) or rule == key`: the rule sends its parts
      to workflow `key`. */
  predicate SendsTo(rule: string, key: string)
  {
    (|key| + 1 <= |rule| && rule[|rule| - |key| - 1..] == [':'] + key) || rule == key
  }

  /** The rule `rules[id]` of workflow `key`. */
  datatype Site = Site(key: string, rules: seq<string>, id: nat)

  /** The first rule at or after `from` that sends to `key`. */
  function FirstSending(rules: seq<string>, key: string, from: nat): (r: Option<nat>)
    decreases |rules| - from
  {
    if from >= |rules| then None
    else if SendsTo(rules[from], key) then Some(from)
    else FirstSending(rules, key, from + 1)
  }

  lemma {:induction false} FirstSendingSpec(rules: seq<string>, key: string, from: nat)
    ensures FirstSending(rules, key, from).None? <==> forall j :: from <= j < |rules| ==> !SendsTo(rules[j], key)
    ensures FirstSending(rules, key, from).Some? ==>
      var j := FirstSending(rules, key, from).value;
      from <= j < |rules| && SendsTo(rules[j], key) && forall k :: from <= k < j ==> !SendsTo(rules[k], key)
    decreases |rules| - from
  {
    if from < |rules| && !SendsTo(rules[from], key) {
      FirstSendingSpec(rules, key, from + 1);
    }
  }

  /** `find_prior_rule`: the first rule, in dict order, that sends to
      `key`; `None` where the source falls off the end. */
  function PriorRule(d: RuleDict, key: string): Option<Site>
  {
    if d == [] then None
    else
      match FirstSending(d[0].rules, key, 0)
      case Some(id) => Some(Site(d[0].name, d[0].rules, id))
      case None => PriorRule(d[1..], key)
  }

  /** The prior rule is a rule of the dict that sends to `key`, no earlier
      rule does, and there is none exactly when no rule sends to `key`. */
  lemma {:induction false} PriorRuleSpec(d: RuleDict, key: string)
    ensures PriorRule(d, key).None? <==>
      forall i, j :: 0 <= i < |d| && 0 <= j < |d[i].rules| ==> !SendsTo(d[i].rules[j], key)
    ensures PriorRule(d, key).Some? ==>
      var s := PriorRule(d, key).value;
      exists i :: 0 <= i < |d| && d[i] == Workflow(s.key, s.rules)
        && s.id < |s.rules| && SendsTo(s.rules[s.id], key)
        && (forall j :: 0 <= j < s.id ==> !SendsTo(s.rules[j], key))
        && (forall h, j :: 0 <= h < i && 0 <= j < |d[h].rules| ==> !SendsTo(d[h].rules[j], key))
  {
    if d != [] {
      FirstSendingSpec(d[0].rules, key, 0);
      PriorRuleSpec(d[1..], key);
      if FirstSending(d[0].rules, key, 0).None? {
        assert forall i :: 0 < i < |d| ==> d[i] == d[1..][i - 1];
        if PriorRule(d, key).Some? {
          var s := PriorRule(d, key).value;
          var i :| 0 <= i < |d[1..]| && d[1..][i] == Workflow(s.key, s.rules)
            && s.id < |s.rules| && SendsTo(s.rules[s.id], key)
            && (forall j :: 0 <= j < s.id ==> !SendsTo(s.rules[j], key))
            && (forall h, j :: 0 <= h < i && 0 <= j < |d[1..][h].rules| ==> !SendsTo(d[1..][h].rules[j], key));
          assert d[i + 1] == Workflow(s.key, s.rules);
        }
      } else {
        assert d[0] == Workflow(d[0].name, d[0].rules);
      }
    }
  }

  /** `find_prior_rule`, its two loops returning on the first match. */
  method FindPriorRule(d: RuleDict, key: string) returns (r: Option<Site>)
    ensures r == PriorRule(d, key)
  {
    for i := 0 to |d|
      invariant PriorRule(d, key) == PriorRule(d[i..], key)
    {
      var rules := d[i].rules;
      for id := 0 to |rules|
        invariant FirstSending(rules, key, 0) == FirstSending(rules, key, id)
      {
        if SendsTo(rules[id], key) {
          assert d[i..][0] == d[i];
          return Some(Site(d[i].name, rules, id));
        }
      }
      assert d[i..][0] == d[i] && d[i..][1..] == d[i + 1..];
    }
    return None;
  }

  // The walk back from one accepting rule.

  /** One step of `RejectBefore`, for the loop that computes it. */
  lemma RejectBeforeStep(b: Box, rules: seq<string>, n: nat)
    requires 0 < n <= |rules|
    ensures Refined(b, rules[n - 1], true).None? ==> RejectBefore(b, rules, n).None?
    ensures Refined(b, rules[n - 1], true).Some? ==>
      RejectBefore(b, rules, n) == RejectBefore(Refined(b, rules[n - 1], true).value, rules, n - 1)
  {
  }

  /** Refining `rules[n - 1]`, …, `rules[0]` as rejected, in that order. */
  function RejectBefore(b: Box, rules: seq<string>, n: nat): Option<Box>
    requires n <= |rules|
    decreases n
  {
    if n == 0 then Some(b)
    else
      match Refined(b, rules[n - 1], true)
      case None => None
      case Some(b') => RejectBefore(b', rules, n - 1)
  }

  /** The rule is `A` or a workflow's label: the walk does not narrow on it. */
  predicate Skipped(d: RuleDict, rule: string)
  {
    rule == "A" || Lookup(d, rule).Some?
  }

  /** One workflow's share of the walk: narrow on rule `id` as accepted
      (unless it is skipped), then on every earlier rule as rejected. */
  function Selected(d: RuleDict, b: Box, rules: seq<string>, id: nat): Option<Box>
    requires id < |rules|
  {
    var accepted := if Skipped(d, rules[id]) then Some(b) else Refined(b, rules[id], false);
    match accepted
    case None => None
    case Some(b1) => RejectBefore(b1, rules, id)
  }

  /** The loop of `get_intervals_for_rule_set` from rule `id` of workflow
      `key`, with at most `fuel` steps back; `None` where the source
      raises (an index past the rules, a failed refinement, no prior
      rule) or the fuel runs out. */
  function Walk(d: RuleDict, key: string, rules: seq<string>, id: nat, b: Box, fuel: nat): Option<Box>
    decreases fuel
  {
    if id >= |rules| then None
    else
      match Selected(d, b, rules, id)
      case None => None
      case Some(b2) =>
        if key == "in" then Some(b2)
        else if fuel == 0 then None
        else
          match PriorRule(d, key)
          case None => None
          case Some(s) => Walk(d, s.key, s.rules, s.id, b2, fuel - 1)
  }

  /** `get_intervals_for_rule_set(key, id, rule_dict)`. */
  function IntervalsFor(d: RuleDict, key: string, id: nat, fuel: nat): Option<Box>
  {
    match Lookup(d, key)
    case None => None
    case Some(rules) => Walk(d, key, rules, id, Unbounded(), fuel)
  }

  /** A part takes rule `id` of `rules`: it fails every earlier rule and
      passes rule `id` when the walk narrows on that rule's comparison. */
  predicate Takes(d: RuleDict, rules: seq<string>, id: nat, p: Part)
    requires id < |rules|
  {
    && (forall j :: 0 <= j < id ==> !Passes(rules[j], p))
    && (!Skipped(d, rules[id]) && Comparison(rules[id]).Some? ==> Passes(rules[id], p))
  }

  /** The part takes rule `id` of workflow `key`, and the rule leading
      there, and so on back to `in`, within `fuel` steps. */
  predicate Reaches(d: RuleDict, key: string, rules: seq<string>, id: nat, p: Part, fuel: nat)
    decreases fuel
  {
    && id < |rules| && Takes(d, rules, id, p)
    && (key == "in" ||
         (fuel > 0 && PriorRule(d, key).Some? &&
          var s := PriorRule(d, key).value;
          Reaches(d, s.key, s.rules, s.id, p, fuel - 1)))
  }

  lemma FailsAllSplit(rules: seq<string>, n: nat, p: Part)
    requires 0 < n <= |rules|
    ensures (forall j :: 0 <= j < n ==> !Passes(rules[j], p)) <==>
      (forall j :: 0 <= j < n - 1 ==> !Passes(rules[j], p)) && !Passes(rules[n - 1], p)
  {
  }

  lemma {:induction false} RejectBeforeExact(b: Box, rules: seq<string>, n: nat, p: Part)
    requires n <= |rules| && RejectBefore(b, rules, n).Some?
    ensures Within(RejectBefore(b, rules, n).value, b)
    ensures InBox(p, RejectBefore(b, rules, n).value) <==> InBox(p, b) && forall j :: 0 <= j < n ==> !Passes(rules[j], p)
    decreases n
  {
    if n > 0 {
      RejectBeforeStep(b, rules, n);
      var b' := Refined(b, rules[n - 1], true).value;
      RefinedExact(b, rules[n - 1], true, p);
      RejectBeforeExact(b', rules, n - 1, p);
      WithinTransitive(RejectBefore(b', rules, n - 1).value, b', b);
      FailsAllSplit(rules, n, p);
    }
  }

  lemma SelectedExact(d: RuleDict, b: Box, rules: seq<string>, id: nat, p: Part)
    requires id < |rules| && Selected(d, b, rules, id).Some?
    ensures Within(Selected(d, b, rules, id).value, b)
    ensures InBox(p, Selected(d, b, rules, id).value) <==> InBox(p, b) && Takes(d, rules, id, p)
  {
    var b1 := if Skipped(d, rules[id]) then b else Refined(b, rules[id], false).value;
    if !Skipped(d, rules[id]) && Comparison(rules[id]).Some? {
      RefinedExact(b, rules[id], false, p);
    } else if !Skipped(d, rules[id]) {
      assert b1 == b;
    }
    RejectBeforeExact(b1, rules, id, p);
  }

  /** The box the walk ends with holds exactly the parts of the box it
      started from that reach the accepting rule from `in`; it is never
      wider. */
  lemma {:induction false} WalkExact(d: RuleDict, key: string, rules: seq<string>, id: nat, b: Box, fuel: nat, p: Part)
    requires Walk(d, key, rules, id, b, fuel).Some?
    ensures Within(Walk(d, key, rules, id, b, fuel).value, b)
    ensures InBox(p, Walk(d, key, rules, id, b, fuel).value) <==> InBox(p, b) && Reaches(d, key, rules, id, p, fuel)
    decreases fuel
  {
    var b2 := Selected(d, b, rules, id).value;
    SelectedExact(d, b, rules, id, p);
    if key != "in" {
      var s := PriorRule(d, key).value;
      WalkExact(d, s.key, s.rules, s.id, b2, fuel - 1, p);
    }
  }

  /** `get_intervals_for_rule_set`: a fresh dict, then the walk back. */
  method GetIntervalsForRuleSet(d: RuleDict, key0: string, id0: nat, fuel0: nat) returns (r: Option<Box>)
    ensures r == IntervalsFor(d, key0, id0, fuel0)
  {
    var intervals := new Intervals();
    var found := Lookup(d, key0);
    if found.None? {
      return None;
    }
    var key: string, rules: seq<string>, id: nat, fuel: nat := key0, found.value, id0, fuel0;
    while true
      invariant Walk(d, key, rules, id, intervals.ranges, fuel) == IntervalsFor(d, key0, id0, fuel0)
      decreases fuel
    {
      if id >= |rules| {
        return None;
      }
      var ok := SelectRule(d, intervals, rules, id);
      if !ok {
        return None;
      }
      if key == "in" {
        return Some(intervals.ranges);
      }
      if fuel == 0 {
        return None;
      }
      var prior := FindPriorRule(d, key);
      if prior.None? {
        return None;
      }
      key, rules, id, fuel := prior.value.key, prior.value.rules, prior.value.id, fuel - 1;
    }
  }

  /** The body of `get_intervals_for_rule_set`'s loop up to the check for
      `in`: accept rule `id` unless it names a workflow or `A`, then reject
      every earlier rule. */
  method SelectRule(d: RuleDict, intervals: Intervals, rules: seq<string>, id: nat) returns (ok: bool)
    requires id < |rules|
    modifies intervals
    ensures ok <==> Selected(d, old(intervals.ranges), rules, id).Some?
    ensures ok ==> intervals.ranges == Selected(d, old(intervals.ranges), rules, id).value
  {
    var rule := rules[id];
    if rule != "A" && Lookup(d, rule).None? {
      ok := intervals.Refine(rule, false);
      if !ok {
        return;
      }
    }
    ok := intervals.RejectEarlier(rules, id);
  }

  // Counting.

  /** The number of ratings in a range, none for an empty one. */
  function Width(r: Range): (n: nat)
    ensures n == 0 <==> r.hi < r.lo
  {
    if r.hi < r.lo then 0 else r.hi - r.lo + 1
  }

  /** A range has `Width` ratings. */
  lemma {:induction false} WidthCounts(r: Range)
    ensures |set x: int | r.lo <= x <= r.hi && InRange(x, r)| == Width(r)
    decreases Width(r)
  {
    if r.hi < r.lo {
      assert (set x: int | r.lo <= x <= r.hi && InRange(x, r)) == {};
    } else {
      var shorter := Range(r.lo, r.hi - 1);
      WidthCounts(shorter);
      assert (set x: int | r.lo <= x <= r.hi && InRange(x, r)) == (set x: int | r.lo <= x <= r.hi - 1 && InRange(x, shorter)) + {r.hi};
    }
  }

  /** The product of the widths of the listed letters. */
  function Product(b: Box, cs: seq<char>): int
    requires forall k :: 0 <= k < |cs| ==> cs[k] in b
  {
    if cs == [] then 1 else Product(b, cs[..|cs| - 1]) * Width(b[cs[|cs| - 1]])
  }

  /** `count_permutations` as written: `upper - lower + 1` per letter,
      negative for an empty range. */
  function PermutationsAsWritten(b: Box): int
    requires b.Keys == {'x', 'm', 'a', 's'}
  {
    (b['x'].hi - b['x'].lo + 1) * (b['m'].hi - b['m'].lo + 1) * (b['a'].hi - b['a'].lo + 1) * (b['s'].hi - b['s'].lo + 1)
  }

  /** `count_permutations` with empty ranges counted as empty. */
  function Permutations(b: Box): int
    requires b.Keys == {'x', 'm', 'a', 's'}
  {
    Product(b, Letters)
  }

  /** No part is counted twice or negatively: the count is a product of
      widths, zero exactly when a range is empty, and at most the full
      4000^4 for a box within the unbounded one. */
  lemma PermutationsSpec(b: Box)
    requires b.Keys == {'x', 'm', 'a', 's'}
    ensures Permutations(b) == Width(b['x']) * Width(b['m']) * Width(b['a']) * Width(b['s'])
    ensures Permutations(b) >= 0
    ensures Permutations(b) == 0 <==> exists c :: c in b && b[c].hi < b[c].lo
    ensures Within(b, Unbounded()) ==> Permutations(b) <= 4000 * 4000 * 4000 * 4000
  {
    var wx, wm, wa, ws := Width(b['x']), Width(b['m']), Width(b['a']), Width(b['s']);
    assert Product(b, ['x']) == wx by {
      assert ['x'][..0] == [];
    }
    assert Product(b, ['x', 'm']) == wx * wm by {
      assert ['x', 'm'][..1] == ['x'];
    }
    assert Product(b, ['x', 'm', 'a']) == wx * wm * wa by {
      assert ['x', 'm', 'a'][..2] == ['x', 'm'];
    }
    assert Product(b, Letters) == wx * wm * wa * ws by {
      assert Letters[..3] == ['x', 'm', 'a'];
    }
    if Within(b, Unbounded()) {
      assert wx <= 4000 && wm <= 4000 && wa <= 4000 && ws <= 4000;
      assert wx * wm <= 4000 * 4000 by { MulBounds(wx, wm, 4000, 4000); }
      assert wx * wm * wa <= 4000 * 4000 * 4000 by { MulBounds(wx * wm, wa, 4000 * 4000, 4000); }
      MulBounds(wx * wm * wa, ws, 4000 * 4000 * 4000, 4000);
    }
    if Permutations(b) == 0 {
      if wx * wm * wa == 0 {
        if wx * wm == 0 {
          if wx != 0 { assert wm == 0; }
        }
      }
    }
  }

  lemma MulBounds(a: nat, b: nat, x: nat, y: nat)
    requires a <= x && b <= y
    ensures a * b <= x * y
  {
  }

  /** The range `x in [10, 4]` that rejecting `x<10` then accepting `x<5`
      leaves counts negatively as written and as nothing as intended. */
  lemma AsWrittenCountsEmptyNegative()
    ensures PermutationsAsWritten(Unbounded()['x' := Range(10, 4)]) == -5 * 4000 * 4000 * 4000
    ensures Permutations(Unbounded()['x' := Range(10, 4)]) == 0
  {
    PermutationsSpec(Unbounded()['x' := Range(10, 4)]);
  }

  /** `in{x<10:A,x<5:A,R}`: the second rule can never be taken. */
  const Shadowed: RuleDict := [Workflow("in", ["x<10:A", "x<5:A", "R"])]

  /** Walking back from the unreachable `x<5:A` leaves `x in [10, 4]`. */
  lemma ShadowedRuleBox()
    ensures IntervalsFor(Shadowed, "in", 1, 0) == Some(Unbounded()['x' := Range(10, 4)])
  {
    var rules := Shadowed[0].rules;
    var u := Unbounded();
    assert Lookup(Shadowed, "in") == Some(rules);
    assert Lookup(Shadowed, "x<5:A").None?;
    ShadowedRefines(rules[1], rules[0]);
    var b1 := u['x' := Range(1, 4)];
    var b2 := u['x' := Range(10, 4)];
    assert RejectBefore(b1, rules, 1) == Some(b2);
    assert Selected(Shadowed, u, rules, 1) == Some(b2);
  }

  /** Accepting `x<5` on the full box, then rejecting `x<10`. */
  lemma ShadowedRefines(r5: string, r10: string)
    requires r5 == "x<5:A" && r10 == "x<10:A"
    ensures Refined(Unbounded(), r5, false) == Some(Unbounded()['x' := Range(1, 4)])
    ensures Refined(Unbounded()['x' := Range(1, 4)], r10, true) == Some(Unbounded()['x' := Range(10, 4)])
  {
    ShadowedComparisons(r5, r10);
    var u := Unbounded();
    var b1 := u['x' := Range(1, 4)];
    assert b1['x' := Range(10, 4)] == u['x' := Range(10, 4)];
  }

  lemma ShadowedComparisons(r5: string, r10: string)
    requires r5 == "x<5:A" && r10 == "x<10:A"
    ensures Comparison(r5) == Some(('x', '<', 5)) && Comparison(r10) == Some(('x', '<', 10))
  {
    RuleValueText(r5, "x<5");
    RuleValueText(r10, "x<10");
    assert "x<5"[2..] == "5" && "x<10"[2..] == "10";
    SmallDecimals();
  }

  lemma SmallDecimals()
    ensures Decimal("5") == Some(5) && Decimal("10") == Some(10)
  {
    assert Decimal("5") == Some(5) by { assert DigitsValue("5"[..0]) == 0; }
    assert Decimal("10") == Some(10) by {
      assert "10"[..1] == "1";
      assert DigitsValue("1"[..0]) == 0;
    }
  }

  /** The value text of a rule `head:A` is `head` after its first two
      characters. */
  lemma RuleValueText(rule: string, head: string)
    requires rule == head + ":A" && ':' !in head && |head| >= 2
    ensures ValueText(rule) == head[2..]
  {
    BeforeAfterJoined(head, ':', "A");
    assert head + [':'] + "A" == rule;
  }

  method CountPermutations(b: Box) returns (total: int)
    requires b.Keys == {'x', 'm', 'a', 's'}
    ensures total == Permutations(b)
  {
    total := 1;
    for k := 0 to |Letters|
      invariant total == Product(b, Letters[..k])
    {
      var r := b[Letters[k]];
      var width := if r.hi < r.lo then 0 else r.hi - r.lo + 1;
      assert Letters[..k + 1][..k] == Letters[..k];
      total := total * width;
    }
    assert Letters[..|Letters|] == Letters;
  }

  // All accepting rules.

  /** `'A' in rule`. */
  predicate MentionsA(rule: string)
  {
    Contains(rule, "A")
  }

  /** The rules of one workflow that mention `A`, from rule `from` on. */
  function AcceptingIn(name: string, rules: seq<string>, from: nat): (r: seq<(string, nat)>)
    ensures forall k :: 0 <= k < |r| ==> r[k].0 == name && from <= r[k].1 < |rules| && MentionsA(rules[r[k].1])
    decreases |rules| - from
  {
    if from >= |rules| then []
    else (if MentionsA(rules[from]) then [(name, from)] else []) + AcceptingIn(name, rules, from + 1)
  }

  /** `rules_with_acceptances`: every `(key, rule_id)` whose rule mentions
      `A`, in dict and rule order. */
  function Acceptances(d: RuleDict): seq<(string, nat)>
  {
    if d == [] then [] else AcceptingIn(d[0].name, d[0].rules, 0) + Acceptances(d[1..])
  }

  /** The intervals of every accepting rule, `None` if any walk fails. */
  function BoxesFor(d: RuleDict, acc: seq<(string, nat)>, fuel: nat): Option<seq<Box>>
  {
    if acc == [] then Some([])
    else
      match BoxesFor(d, acc[..|acc| - 1], fuel)
      case None => None
      case Some(bs) =>
        match IntervalsFor(d, acc[|acc| - 1].0, acc[|acc| - 1].1, fuel)
        case None => None
        case Some(b) => Some(bs + [b])
  }

  /** The sum of the counts of the boxes (all with the four letters). */
  function SumCounts(bs: seq<Box>): int
    requires forall k :: 0 <= k < |bs| ==> bs[k].Keys == {'x', 'm', 'a', 's'}
  {
    if bs == [] then 0 else SumCounts(bs[..|bs| - 1]) + Permutations(bs[|bs| - 1])
  }

  /** Every walked box has the four letters within `[1, 4000]`. */
  lemma IntervalsForWithin(d: RuleDict, key: string, id: nat, fuel: nat)
    requires IntervalsFor(d, key, id, fuel).Some?
    ensures IntervalsFor(d, key, id, fuel).value.Keys == {'x', 'm', 'a', 's'}
    ensures Within(IntervalsFor(d, key, id, fuel).value, Unbounded())
  {
    var rules := Lookup(d, key).value;
    WalkExact(d, key, rules, id, Unbounded(), fuel, map[]);
  }

  lemma {:induction false} BoxesForWithin(d: RuleDict, acc: seq<(string, nat)>, fuel: nat)
    requires BoxesFor(d, acc, fuel).Some?
    ensures |BoxesFor(d, acc, fuel).value| == |acc|
    ensures forall k :: 0 <= k < |acc| ==>
      BoxesFor(d, acc, fuel).value[k].Keys == {'x', 'm', 'a', 's'} && Within(BoxesFor(d, acc, fuel).value[k], Unbounded())
  {
    if acc != [] {
      BoxesForWithin(d, acc[..|acc| - 1], fuel);
      IntervalsForWithin(d, acc[|acc| - 1].0, acc[|acc| - 1].1, fuel);
    }
  }

  /** `find_accepted_combinations`. */
  function Total(d: RuleDict, fuel: nat): Option<int>
  {
    match BoxesFor(d, Acceptances(d), fuel)
    case None => None
    case Some(bs) =>
      BoxesForWithin(d, Acceptances(d), fuel);
      Some(SumCounts(bs))
  }

  lemma {:induction false} SumCountsBounds(bs: seq<Box>)
    requires forall k :: 0 <= k < |bs| ==> bs[k].Keys == {'x', 'm', 'a', 's'} && Within(bs[k], Unbounded())
    ensures 0 <= SumCounts(bs) <= |bs| * (4000 * 4000 * 4000 * 4000)
  {
    if bs != [] {
      SumCountsBounds(bs[..|bs| - 1]);
      PermutationsSpec(bs[|bs| - 1]);
    }
  }

  /** The total is never negative, and each accepting rule adds at most
      4000^4. */
  lemma TotalBounds(d: RuleDict, fuel: nat)
    requires Total(d, fuel).Some?
    ensures 0 <= Total(d, fuel).value <= |Acceptances(d)| * (4000 * 4000 * 4000 * 4000)
  {
    BoxesForWithin(d, Acceptances(d), fuel);
    SumCountsBounds(BoxesFor(d, Acceptances(d), fuel).value);
  }

  /** `find_accepted_combinations`: collect the accepting rules, walk back
      from each, and sum the counts. */
  method FindAcceptedCombinations(d: RuleDict, fuel: nat) returns (total: Option<int>)
    ensures total == Total(d, fuel)
  {
    var acc := CollectAcceptances(d);
    var boxes := GatherIntervals(d, acc, fuel);
    if boxes.None? {
      return None;
    }
    BoxesForWithin(d, acc, fuel);
    var sum := 0;
    for k := 0 to |boxes.value|
      invariant sum == SumCounts(boxes.value[..k])
    {
      var count := CountPermutations(boxes.value[k]);
      assert boxes.value[..k + 1][..k] == boxes.value[..k];
      sum := sum + count;
    }
    assert boxes.value[..|boxes.value|] == boxes.value;
    total := Some(sum);
  }

  /** The loop filling `rules_with_acceptances`. */
  method CollectAcceptances(d: RuleDict) returns (acc: seq<(string, nat)>)
    ensures acc == Acceptances(d)
  {
    acc := [];
    for i := 0 to |d|
      invariant acc + Acceptances(d[i..]) == Acceptances(d)
    {
      AcceptancesStep(d, i);
      var found := AcceptingRules(d[i].name, d[i].rules);
      assert acc + Acceptances(d[i..]) == (acc + found) + Acceptances(d[i + 1..]);
      acc := acc + found;
    }
    assert d[|d|..] == [];
  }

  /** The inner loop of that scan, over one workflow's rules. */
  method AcceptingRules(name: string, rules: seq<string>) returns (found: seq<(string, nat)>)
    ensures found == AcceptingIn(name, rules, 0)
  {
    found := [];
    for id := 0 to |rules|
      invariant found + AcceptingIn(name, rules, id) == AcceptingIn(name, rules, 0)
    {
      if MentionsA(rules[id]) {
        assert found + AcceptingIn(name, rules, id) == (found + [(name, id)]) + AcceptingIn(name, rules, id + 1);
        found := found + [(name, id)];
      }
    }
  }

  lemma AcceptancesStep(d: RuleDict, i: nat)
    requires i < |d|
    ensures Acceptances(d[i..]) == AcceptingIn(d[i].name, d[i].rules, 0) + Acceptances(d[i + 1..])
  {
    assert d[i..][0] == d[i] && d[i..][1..] == d[i + 1..];
  }

  /** The loop filling `intervals`, one walk per accepting rule. */
  method GatherIntervals(d: RuleDict, acc: seq<(string, nat)>, fuel: nat) returns (r: Option<seq<Box>>)
    ensures r == BoxesFor(d, acc, fuel)
  {
    var boxes: seq<Box> := [];
    for k := 0 to |acc|
      invariant BoxesFor(d, acc[..k], fuel) == Some(boxes)
    {
      var b := GetIntervalsForRuleSet(d, acc[k].0, acc[k].1, fuel);
      assert acc[..k + 1][..k] == acc[..k];
      if b.None? {
        BoxesForNone(d, acc, k + 1, fuel);
        return None;
      }
      boxes := boxes + [b.value];
    }
    assert acc[..|acc|] == acc;
    r := Some(boxes);
  }

  /** A failing walk fails the whole collection. */
  lemma {:induction false} BoxesForNone(d: RuleDict, acc: seq<(string, nat)>, n: nat, fuel: nat)
    requires 0 < n <= |acc| && BoxesFor(d, acc[..n], fuel).None?
    ensures BoxesFor(d, acc, fuel).None?
    decreases |acc| - n
  {
    if n < |acc| {
      assert acc[..n + 1][..n] == acc[..n];
      BoxesForNone(d, acc, n + 1, fuel);
    } else {
      assert acc[..n] == acc;
    }
  }
}
