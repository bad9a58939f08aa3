/** Day 5, part one (D5P1/main.py): the seed almanac. The input lists
    seeds and then maps, one per `map:` header; each map row is three
    numbers `destination source length`. A value passes through the maps
    in order, and within a map the first row whose source range holds it
    shifts it to the destination range. */
module Almanac {

  import opened Wrappers
  import opened Text

  /** A map row as read: its words, converted by `int()` only when the
      traversal reaches it. */
  type Row = seq<string>

  datatype Entry = Entry(destination: int, source: int, length: int)

  /** `int(map_entry[0])` .. `int(map_entry[2])`; `None` is the
      `IndexError` or `ValueError` the conversion raises. */
  function ParseEntry(row: Row): Option<Entry>
  {
    if |row| < 3 then None
    else match (Decimal(row[0]), Decimal(row[1]), Decimal(row[2]))
      case (Some(d), Some(s), Some(l)) => Some(Entry(d, s, l))
      case _ => None
  }

  predicate Holds(e: Entry, v: int)
  {
    e.source <= v < e.source + e.length
  }

  /** Where a row sends a value it holds. */
  function Shift(e: Entry, v: int): int
  {
    e.destination + (v - e.source)
  }

  /** One map: the first row holding `v` shifts it, and no row leaves it
      as it is. */
  function MapValue(rows: seq<Row>, v: int): Option<int>
  {
    if rows == [] then Some(v)
    else match ParseEntry(rows[0])
      case None => None
      case Some(e) => if Holds(e, v) then Some(Shift(e, v)) else MapValue(rows[1..], v)
  }

  /** All maps in order, each applied to the previous one's output. */
  function Traverse(maps: seq<seq<Row>>, v: int): Option<int>
  {
    if maps == [] then Some(v)
    else match MapValue(maps[0], v)
      case None => None
      case Some(w) => Traverse(maps[1..], w)
  }

  /** `traverse_maps`. */
  method TraverseMaps(seed: int, maps: seq<seq<Row>>) returns (r: Option<int>)
    ensures r == Traverse(maps, seed)
  {
    var value := seed;
    for m := 0 to |maps|
      invariant Traverse(maps, seed) == Traverse(maps[m..], value)
    {
      var rows := maps[m];
      var j := 0;
      while j < |rows|
        invariant j <= |rows|
        invariant MapValue(rows, value) == MapValue(rows[j..], value)
      {
        var e := ParseEntry(rows[j]);
        if e.None? {
          return None;
        }
        if value >= e.value.source && value < e.value.source + e.value.length {
          value := e.value.destination + (value - e.value.source);
          break;
        }
        j := j + 1;
      }
      assert maps[m..][1..] == maps[m + 1..];
    }
    r := Some(value);
  }

  /** Every row converts. */
  predicate WellFormed(rows: seq<Row>)
  {
    forall k :: 0 <= k < |rows| ==> ParseEntry(rows[k]).Some?
  }

  /** The index of the first row holding `v`, if any. */
  function FirstHolding(rows: seq<Row>, v: int): (k: Option<nat>)
    requires WellFormed(rows)
    ensures k.Some? ==> k.value < |rows| && Holds(ParseEntry(rows[k.value]).value, v)
    ensures k.Some? ==> forall j :: 0 <= j < k.value ==> !Holds(ParseEntry(rows[j]).value, v)
    ensures k.None? ==> forall j :: 0 <= j < |rows| ==> !Holds(ParseEntry(rows[j]).value, v)
  {
    if rows == [] then None
    else if Holds(ParseEntry(rows[0]).value, v) then Some(0)
    else
      assert WellFormed(rows[1..]) by {
        forall k | 0 <= k < |rows| - 1 ensures ParseEntry(rows[1..][k]).Some? {
          assert rows[1..][k] == rows[k + 1];
        }
      }
      match FirstHolding(rows[1..], v)
      case None => None
      case Some(k) => Some(k + 1)
  }

  /** On a well-formed map the first holding row decides, and a value no
      row holds passes through unchanged. */
  lemma {:induction false} MapValueFirstHolding(rows: seq<Row>, v: int)
    requires WellFormed(rows)
    ensures FirstHolding(rows, v).None? ==> MapValue(rows, v) == Some(v)
    ensures FirstHolding(rows, v).Some? ==> MapValue(rows, v) == Some(Shift(ParseEntry(rows[FirstHolding(rows, v).value]).value, v))
  {
    if rows != [] && !Holds(ParseEntry(rows[0]).value, v) {
      assert WellFormed(rows[1..]) by {
        forall k | 0 <= k < |rows| - 1 ensures ParseEntry(rows[1..][k]).Some? {
          assert rows[1..][k] == rows[k + 1];
        }
      }
      MapValueFirstHolding(rows[1..], v);
    }
  }

  /** A malformed row is only an error once the scan reaches it. */
  lemma {:induction false} MalformedAfterMatch(rows: seq<Row>, k: nat, v: int)
    requires k < |rows| && WellFormed(rows[..k + 1]) && Holds(ParseEntry(rows[k]).value, v)
    ensures MapValue(rows, v).Some?
  {
    if k > 0 && !Holds(ParseEntry(rows[0]).value, v) {
      assert rows[1..][..k] == rows[1..k + 1];
      assert WellFormed(rows[1..][..k]) by {
        forall j | 0 <= j < k ensures ParseEntry(rows[1..][..k][j]).Some? {
          assert rows[1..][..k][j] == rows[..k + 1][j + 1];
        }
      }
      MalformedAfterMatch(rows[1..], k - 1, v);
    } else if k == 0 {
      assert rows[..1][0] == rows[0];
    } else {
      assert rows[..k + 1][0] == rows[0];
    }
  }

  /** Traversing two runs of maps is traversing their concatenation. */
  lemma {:induction false} TraverseAppend(m1: seq<seq<Row>>, m2: seq<seq<Row>>, v: int)
    ensures Traverse(m1 + m2, v) == match Traverse(m1, v) case None => None case Some(w) => Traverse(m2, w)
  {
    if m1 == [] {
      assert m1 + m2 == m2;
    } else {
      assert (m1 + m2)[0] == m1[0] && (m1 + m2)[1..] == m1[1..] + m2;
      match MapValue(m1[0], v)
      case None =>
      case Some(w) => TraverseAppend(m1[1..], m2, w);
    }
  }

  /** `min(locations)` over every seed's location; `None` when there are
      no seeds (the `ValueError` of `min`) or a traversal fails. */
  function Lowest(seeds: seq<int>, maps: seq<seq<Row>>): (r: Option<int>)
    ensures r.Some? ==> seeds != [] && forall i :: 0 <= i < |seeds| ==> Traverse(maps, seeds[i]).Some? && r.value <= Traverse(maps, seeds[i]).value
    ensures r.Some? ==> exists i :: 0 <= i < |seeds| && Traverse(maps, seeds[i]) == r
    ensures r.None? ==> seeds == [] || exists i :: 0 <= i < |seeds| && Traverse(maps, seeds[i]).None?
  {
    if seeds == [] then None
    else
      var here := Traverse(maps, seeds[|seeds| - 1]);
      if here.None? then None
      else if |seeds| == 1 then here
      else
        var rest := Lowest(seeds[..|seeds| - 1], maps);
        if rest.None? then
          assert forall i :: 0 <= i < |seeds| - 1 ==> seeds[..|seeds| - 1][i] == seeds[i];
          None
        else
          assert forall i :: 0 <= i < |seeds| - 1 ==> seeds[..|seeds| - 1][i] == seeds[i];
          Some(if rest.value <= here.value then rest.value else here.value)
  }

  // ---------------------------------------------------------------
  // `map_parser`
  // ---------------------------------------------------------------

  datatype Parsed = Parsed(seeds: seq<int>, maps: seq<seq<Row>>, current: seq<Row>, inMap: bool)

  /** `int()` over a list of words. */
  function Numbers(words: seq<string>): Option<seq<int>>
  {
    if words == [] then Some([])
    else match (Decimal(words[0]), Numbers(words[1..]))
      case (Some(n), Some(ns)) => Some([n] + ns)
      case _ => None
  }

  /** `[int(s) for s in line.split(':')[1].split()]`; `None` is an
      `IndexError` or `ValueError`. */
  function SeedNumbers(line: string): Option<seq<int>>
  {
    var parts := Split(line, ':');
    if |parts| < 2 then None else Numbers(Words(parts[1]))
  }

  predicate IsHeader(line: string)
  {
    !Blank(line) && !Contains(line, "seeds:") && Contains(line, "map:")
  }

  /** One line of the parser's loop. */
  function Step(st: Parsed, line: string): Option<Parsed>
  {
    if Blank(line) then Some(st)
    else if Contains(line, "seeds:") then
      match SeedNumbers(line)
      case None => None
      case Some(ns) => Some(st.(seeds := st.seeds + ns))
    else if Contains(line, "map:") then
      if st.inMap then Some(st.(maps := st.maps + [st.current], current := [], inMap := true))
      else Some(st.(inMap := true))
    else if st.inMap then Some(st.(current := st.current + [Words(line)]))
    else Some(st)
  }

  function Feed(st: Parsed, lines: seq<string>): Option<Parsed>
    decreases |lines|
  {
    if lines == [] then Some(st)
    else match Step(st, lines[0])
      case None => None
      case Some(next) => Feed(next, lines[1..])
  }

  /** The seeds and the maps; the last map is kept if it has rows. */
  function Parse(lines: seq<string>): Option<(seq<int>, seq<seq<Row>>)>
  {
    match Feed(Parsed([], [], [], false), lines)
    case None => None
    case Some(st) => Some((st.seeds, if st.current != [] then st.maps + [st.current] else st.maps))
  }

  lemma {:induction false} FeedAppend(st: Parsed, lines: seq<string>, line: string)
    decreases |lines|
    ensures Feed(st, lines + [line]) == match Feed(st, lines) case None => None case Some(s) => Step(s, line)
  {
    if lines == [] {
      assert lines + [line] == [line];
    } else {
      assert (lines + [line])[0] == lines[0] && (lines + [line])[1..] == lines[1..] + [line];
      match Step(st, lines[0])
      case None =>
      case Some(next) => FeedAppend(next, lines[1..], line);
    }
  }

  /** `map_parser`'s loop over the lines. */
  method MapParser(lines: seq<string>) returns (r: Option<(seq<int>, seq<seq<Row>>)>)
    ensures r == Parse(lines)
  {
    var seeds: seq<int> := [];
    var maps: seq<seq<Row>> := [];
    var current: seq<Row> := [];
    var inMap := false;
    for i := 0 to |lines|
      invariant Feed(Parsed([], [], [], false), lines[..i]) == Some(Parsed(seeds, maps, current, inMap))
    {
      FeedAppend(Parsed([], [], [], false), lines[..i], lines[i]);
      assert lines[..i + 1] == lines[..i] + [lines[i]];
      var line := lines[i];
      if Blank(line) {
        continue;
      }
      if Contains(line, "seeds:") {
        var ns := SeedNumbers(line);
        if ns.None? {
          FeedNone(lines, i + 1);
          return None;
        }
        seeds := seeds + ns.value;
        continue;
      }
      if Contains(line, "map:") {
        if inMap {
          maps := maps + [current];
          current := [];
        }
        inMap := true;
      } else if inMap {
        current := current + [Words(line)];
      }
    }
    assert lines[..|lines|] == lines;
    if current != [] {
      maps := maps + [current];
    }
    r := Some((seeds, maps));
  }

  /** A failing line fails the whole parse. */
  lemma {:induction false} FeedNone(lines: seq<string>, k: nat)
    requires k <= |lines| && Feed(Parsed([], [], [], false), lines[..k]).None?
    ensures Feed(Parsed([], [], [], false), lines).None?
    decreases |lines| - k
  {
    if k < |lines| {
      FeedAppend(Parsed([], [], [], false), lines[..k], lines[k]);
      assert lines[..k + 1] == lines[..k] + [lines[k]];
      FeedNone(lines, k + 1);
    } else {
      assert lines[..k] == lines;
    }
  }

  function Headers(lines: seq<string>): nat
  {
    if lines == [] then 0 else (if IsHeader(lines[0]) then 1 else 0) + Headers(lines[1..])
  }

  /** The rows of the data lines read while inside a map. */
  function DataRows(inMap: bool, lines: seq<string>): seq<Row>
    decreases |lines|
  {
    if lines == [] then []
    else
      var line := lines[0];
      if Blank(line) || Contains(line, "seeds:") then DataRows(inMap, lines[1..])
      else if Contains(line, "map:") then DataRows(true, lines[1..])
      else (if inMap then [Words(line)] else []) + DataRows(inMap, lines[1..])
  }

  function Flatten(maps: seq<seq<Row>>): seq<Row>
  {
    if maps == [] then [] else maps[0] + Flatten(maps[1..])
  }

  lemma {:induction false} FlattenSnoc(maps: seq<seq<Row>>, m: seq<Row>)
    ensures Flatten(maps + [m]) == Flatten(maps) + m
  {
    if maps == [] {
      assert maps + [m] == [m];
    } else {
      assert (maps + [m])[1..] == maps[1..] + [m];
      FlattenSnoc(maps[1..], m);
    }
  }

  /** Each header opens one map, every map but the open one is closed,
      and the rows of all maps are the data rows in input order. */
  lemma {:induction false} FeedKeepsRows(st: Parsed, lines: seq<string>)
    decreases |lines|
    requires Feed(st, lines).Some?
    ensures var end := Feed(st, lines).value;
      && |end.maps| + (if end.inMap then 1 else 0) == |st.maps| + (if st.inMap then 1 else 0) + Headers(lines)
      && (end.inMap <==> st.inMap || Headers(lines) > 0)
      && Flatten(end.maps) + end.current == Flatten(st.maps) + st.current + DataRows(st.inMap, lines)
  {
    if lines != [] {
      var next := Step(st, lines[0]).value;
      FeedKeepsRows(next, lines[1..]);
      if !Blank(lines[0]) && !Contains(lines[0], "seeds:") && Contains(lines[0], "map:") && st.inMap {
        FlattenSnoc(st.maps, st.current);
      }
    }
  }

  lemma {:induction false} HeadersSnoc(lines: seq<string>, line: string)
    ensures Headers(lines + [line]) == Headers(lines) + (if IsHeader(line) then 1 else 0)
  {
    if lines == [] {
      assert [] + [line] == [line];
    } else {
      assert (lines + [line])[1..] == lines[1..] + [line];
      HeadersSnoc(lines[1..], line);
    }
  }

  /** A line that is neither blank, nor the seeds, nor a header. */
  predicate IsData(line: string)
  {
    !Blank(line) && !Contains(line, "seeds:") && !Contains(line, "map:")
  }

  /** The rows of the data lines after the last header. */
  function LastMapRows(lines: seq<string>): seq<Row>
  {
    if lines == [] then []
    else
      var line := lines[|lines| - 1];
      if IsHeader(line) then []
      else LastMapRows(lines[..|lines| - 1]) + (if IsData(line) then [Words(line)] else [])
  }

  /** The map still open at the end holds the rows after the last header. */
  lemma {:induction false} FeedOpenMap(lines: seq<string>)
    requires Feed(Parsed([], [], [], false), lines).Some?
    ensures var end := Feed(Parsed([], [], [], false), lines).value;
      && (end.inMap <==> Headers(lines) > 0)
      && end.current == (if end.inMap then LastMapRows(lines) else [])
    decreases |lines|
  {
    if lines != [] {
      var init, line := lines[..|lines| - 1], lines[|lines| - 1];
      assert lines == init + [line];
      FeedAppend(Parsed([], [], [], false), init, line);
      FeedOpenMap(init);
      HeadersSnoc(init, line);
    }
  }

  /** What `map_parser` returns: every data row after the first header,
      in order, and one map per header, except that a last header with no
      rows after it opens no map. */
  lemma ParseKeepsRows(lines: seq<string>)
    requires Parse(lines).Some?
    ensures Flatten(Parse(lines).value.1) == DataRows(false, lines)
    ensures |Parse(lines).value.1| == Headers(lines) - (if Headers(lines) > 0 && LastMapRows(lines) == [] then 1 else 0)
  {
    var st := Parsed([], [], [], false);
    FeedKeepsRows(st, lines);
    FeedOpenMap(lines);
    var end := Feed(st, lines).value;
    assert Flatten([]) + [] == [];
    if end.current != [] {
      FlattenSnoc(end.maps, end.current);
    } else {
      assert Flatten(end.maps) + end.current == Flatten(end.maps);
    }
  }
}
