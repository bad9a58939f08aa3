# Advent of Code 2023 solutions, modelled in Dafny

This project models the Python solutions to the Advent of Code 2023
puzzles in the repository `advent-of-code-2023` and proves
properties of each. Every solved day becomes one Dafny module named after
the puzzle's subject. A module covers both parts when both are solved, and
every operation keeps the source's own form. Pure comprehensions and recursions
become functions with lemmas. Loops become methods with invariants, proved
against a specification function. Objects and grids mutated in place become
classes with `seq` or `map` fields, or arrays.

| day | module | file |
|---|---|---|
| 1 Trebuchet | `Calibration` | `calibration.dfy` |
| 2 Cube Conundrum | `CubeGame` | `cube_game.dfy` |
| 3 Gear Ratios | `EngineSchematic` | `engine_schematic.dfy` |
| 4 Scratchcards | `Scratchcards` | `scratchcards.dfy` |
| 5 Seed almanac (part one) | `Almanac` | `almanac.dfy` |
| 7 Camel Cards | `CamelCards`, `JokerCards` | `camel_cards.dfy`, `joker_cards.dfy` |
| 8 Haunted Wasteland | `Wasteland` | `wasteland.dfy` |
| 9 Mirage Maintenance | `Oasis` | `oasis.dfy` |
| 10 Pipe Maze | `Pipes` | `pipes.dfy` |
| 11 Cosmic Expansion | `Galaxies` | `galaxies.dfy` |
| 12 Hot Springs | `Springs` | `springs.dfy` |
| 13 Point of Incidence | `Mirrors` | `mirrors.dfy` |
| 14 Parabolic Reflector Dish | `Rocks` (with `Cycles`) | `rocks.dfy`, `cycles.dfy` |
| 15 Lens Library | `Lenses` | `d15_lenses.dfy` |
| 16 The Floor Will Be Lava | `Contraption` | `contraption.dfy` |
| 17 Clumsy Crucible | `Crucible` | `crucible.dfy` |
| 18 Lavaduct Lagoon | `Lagoon` | `lagoon.dfy` |
| 19 Aplenty (part two) | `Workflows` | `workflows.dfy` |
| 20 Pulse Propagation | `Pulses`, `PulseNetwork`, `PulseWatch` | `d20_pulses.dfy`, `d20_network.dfy`, `d20_watch.dfy` |
| 21 Step Counter | `StepCounter` | `step_counter.dfy` |
| 22 Sand Slabs | `Bricks` | `bricks.dfy` |
| 23 A Long Walk | `LongWalk` | `long_walk.dfy` |

The shared modules are:
- `Wrappers`: `Option`;
- `Arith`: gcd, lcm and sums;
- `Text`: splitting, joining, words and decimal numerals;
- `Seqs`: reverse and count;
- `Grids`: clockwise turns of a grid;
- `Cycles`: the cycle-skipping search that day 14 uses.

Day 20 is modelled most deeply. `PulseNetwork` (part one) has these parts:
- the parsed module table;
- the `Network` class with `process_signal` and the `push_button` loop;
- a specification function `Next`/`Simulate` for one loop iteration and for a whole run.

The lemmas about `Simulate` show:
- pulse accounting: every pulse taken out is counted once, as low or high;
- no pulse is lost or made up;
- conjunction memories stay keyed by their feeders.

`PulseWatch` (part two) adds the per-press transmission records of the
watched conjunction's feeders and the least common multiple of their first
high-pulse presses.

The source pops pulses from a `heapq`, which orders the tuples
`(sender, strength, receiver)` as Python compares them. The puzzle
describes first-in first-out delivery. The model takes the queue
discipline as a parameter, `Discipline`, with the values `MinHeap` (the
source) and `Fifo` (the puzzle). The general lemmas hold for both, and the
order-keeping lemmas hold for `Fifo`.

Loops the source runs without a bound take a `fuel` parameter, and their
contracts speak of what happens within that fuel. These are:
- the day 20 presses;
- the walks of day 8 and day 10;
- the cycle search of day 14;
- the priority queue of day 17;
- the back-walk of day 19;
- the path stack of day 23.

Integers are unbounded, as in Python. True division (`/`) is modelled on
`real`.

## Model

| member | source | states |
|---|---|---|
| Pulses.LabelBelowIrreflexive | D20/d20p1.py:261 | Python's string order, which `heappop` uses on labels, puts no label below itself |
| Pulses.LabelBelowTransitive | D20/d20p1.py:261 | the string order on labels is transitive |
| Pulses.LabelBelowTotal | D20/d20p1.py:261 | any two distinct labels are ordered one way or the other |
| Pulses.PulseBelowTransitive | D20/d20p1.py:261 | the tuple order on `(sender, strength, receiver)` is transitive |
| Pulses.PulseBelowTotal | D20/d20p1.py:261 | any two distinct pulse tuples are ordered one way or the other |
| Pulses.PulseBelowIrreflexive | D20/d20p1.py:261 | no pulse tuple is below itself |
| Pulses.MinIndexIsLeast | D20/d20p1.py:261 | the pulse `heappop` takes has no queued pulse below it |
| Pulses.Pop | D20/d20p1.py:261 | a pop leaves one pulse fewer; first-in first-out takes the oldest pulse and keeps the rest in order |
| Pulses.PopMultiset | D20/d20p1.py:261 | a pop removes exactly one pulse and keeps all the others (as a multiset) |
| Pulses.PopMembers | D20/d20p1.py:261 | the popped pulse was queued, and so was every pulse left behind |
| Pulses.MinHeapPopIsLeast | D20/d20p1.py:261 | under `heapq` the popped pulse is below every other pulse still queued |
| Pulses.Emit | D20/d20p1.py:209-210 | one pulse of the given strength from the module to each of its links, in link order |
| Pulses.CountStrengthSplit | D20/d20p1.py:262 | every pulse taken out is counted as either low or high |
| Pulses.FlipFlopReact | D20/d20p1.py:213-224 | a flip-flop ignores a high pulse; a low pulse toggles it and it then sends high exactly when it is on |
| Pulses.FlipFlopPairLaw | D20/d20p1.py:213-224 | two low pulses bring a flip-flop back to its state, sending high and then low when it started off |
| Pulses.ConjunctionReact | D20/d20p1.py:226-242 | a conjunction records the sender's strength and keeps every other entry, then sends low exactly when all remembered pulses are high |
| PulseNetwork.Classify | D20/d20p1.py:171-180 | `%` gives a flip-flop and `&` a conjunction with the prefix stripped, `broadcaster` the broadcaster; putting the prefix back gives the declared name |
| PulseNetwork.Table | D20/d20p1.py:164-184 | each module starts off (flip-flop state `'off'`) with an empty memory |
| PulseNetwork.TableKeys | D20/d20p1.py:164-184 | the table holds an entry for exactly the labels the lines declare |
| PulseNetwork.TableLastLineWins | D20/d20p1.py:181-184 | a label's entry (category and links) comes from the last line that declares it |
| PulseNetwork.InitialMemory | D20/d20p1.py:189-193 | a conjunction's memory has a key for exactly the modules that link to it, each `'low'` |
| PulseNetwork.Wire | D20/d20p1.py:189-193 | every conjunction gets that memory; labels, categories, links, states and other memories are unchanged |
| PulseNetwork.ParseMatchesWiring | D20/d20p1.py:156-195 | after parsing every conjunction remembers exactly its feeders, all low |
| PulseNetwork.ReactFrame | D20/d20p1.py:197-244 | a reaction changes at most the receiver's state or memory, never a category or a wiring, and every pulse sent goes from the receiver to one of its links |
| PulseNetwork.React | D20/d20p1.py:197-244 | `process_signal` of part one, `Crashed` for a pulse to a module declared without a prefix (`Untyped`); the `React...` lemmas state each case |
| PulseNetwork.ReactUnknownReceiver | D20/d20p1.py:203-205 | a pulse to a label with no module is dropped and changes nothing |
| PulseNetwork.ReactBroadcaster | D20/d20p1.py:207-211 | the broadcaster forwards the strength it received to every link and changes nothing |
| PulseNetwork.ReactFlipFlop | D20/d20p1.py:213-224 | a flip-flop ignores high; on low it toggles and sends high exactly when it is now on |
| PulseNetwork.ReactConjunction | D20/d20p1.py:226-242 | a conjunction records the sender's strength, then sends low exactly when every remembered pulse is high |
| PulseNetwork.Next | D20/d20p1.py:258-272 | the loop stops exactly when the queue is empty and no presses are left |
| PulseNetwork.NextCounts | D20/d20p1.py:258-272 | one iteration counts each pulse taken out once, under its strength, and presses the button only on an empty queue, using up one press |
| PulseNetwork.NextDelivers | D20/d20p1.py:258-272 | one iteration loses no pulse and makes none up (queued plus sent equals taken out plus still queued) |
| PulseNetwork.NextFifo | D20/d20p1.py:258-272 | with a first-in first-out queue one iteration also keeps the order |
| PulseNetwork.SimulateCounts | D20/d20p1.py:246-275 | over a whole run the counters grow by the pulses taken out, each counted once as low or high, and the button is pressed once per press left |
| PulseNetwork.SimulateDeliversAll | D20/d20p1.py:246-275 | a finished run takes out exactly the pulses that were waiting plus those queued later |
| PulseNetwork.SimulateInOrder | D20/d20p1.py:246-275 | with a first-in first-out queue a finished run takes pulses out in the order they were queued |
| PulseNetwork.NextKeepsMemoryKeys | D20/d20p1.py:226-242 | one iteration keeps every conjunction's memory keyed by exactly its feeders |
| PulseNetwork.Simulate | D20/d20p1.py:246-275 | the loop of `push_button`, one iteration per unit of fuel; the `Simulate...` lemmas state its counts, deliveries and order |
| PulseNetwork.SimulateKeepsMemoryKeys | D20/d20p1.py:226-242 | a conjunction's memory never gains or loses a key during a run |
| PulseNetwork.Network.constructor | D20/d20p1.py:156-195 | the network object holds the parsed module table |
| PulseNetwork.Network.ProcessSignal | D20/d20p1.py:197-244 | updates the receiver in place exactly as the reaction says and returns the pulses it sends; a crash changes nothing |
| PulseNetwork.Network.PushButton | D20/d20p1.py:246-275 | runs the 1000-press loop; when it finishes, the modules are the final ones and the answer is the low count times the high count |
| PulseNetwork.Send | D20/d20p1.py:209-210 | pushes one pulse per link, in link order |
| PulseWatch.Link | D20/d20p2.py:54-59 | every module's inbound links are exactly the modules that send to it, each `'low'`; nothing else of a module changes |
| PulseWatch.ParseShape | D20/d20p2.py:15-61 | `rx` is a sink with no links; every other label has the kind and links of its last line, an unprefixed name other than `broadcaster` becoming a sink; all modules start off with zero counters and inbound links exactly their feeders |
| PulseWatch.Counted | D20/d20p2.py:67-68 | one more pulse of a strength adds one to that strength's counter and leaves the rest of the module as it was |
| PulseWatch.ReactCountsSender | D20/d20p2.py:67-68 | a pulse from a known module adds one to that module's counter for its strength only; a button pulse counts nowhere; an unknown sender is the `KeyError` |
| PulseWatch.React | D20/d20p2.py:63-114 | `process_signal` of part two, the sender's counter bumped first, `Crashed` for the `KeyError` of an unknown sender; `PulseWatch.ReactCountsSender`, `PulseWatch.ReactSends` and `PulseWatch.ReactLikePartOne` state its cases |
| PulseWatch.ReactSends | D20/d20p2.py:63-114 | every pulse sent leaves the receiver, which is a known module |
| PulseWatch.ReactAbsorbs | D20/d20p2.py:72-74 | a pulse to an unknown label or to the `rx` sink changes nothing but the sender's counter and sends nothing |
| PulseWatch.ReactLikePartOne | D20/d20p2.py:76-111 | the broadcaster, flip-flops and conjunctions react as in part one, a conjunction's memory being its inbound links |
| PulseWatch.Hits | D20/d20p2.py:141-146 | the records one reaction adds are the current press count, at most one per pulse sent |
| PulseWatch.HitsCount | D20/d20p2.py:141-143 | one record for every high pulse sent by one of `jq`, `cc`, `sp`, `nx` |
| PulseWatch.NextRecords | D20/d20p2.py:129-149 | one iteration only appends the current press count to the records |
| PulseWatch.Next | D20/d20p2.py:129-149 | one iteration of part two's loop; `PulseWatch.NextRecords` and `PulseWatch.NextNeverBreaks` state what it does |
| PulseWatch.SimulateAnswer | D20/d20p2.py:144-147 | the answer is the lcm of four non-decreasing press counts, each at least 1; it is positive and a multiple of each |
| PulseWatch.NextNeverBreaks | D20/d20p2.py:67-68 | the `KeyError` on an unknown sender never happens: pulses only ever come from the button or known modules |
| PulseWatch.SimulateNeverCrashes | D20/d20p2.py:116-151 | a whole run never reaches that error |
| PulseWatch.Network.constructor | D20/d20p2.py:15-61 | the network object holds the parsed module table |
| PulseWatch.Network.ProcessSignal | D20/d20p2.py:63-114 | updates the counters and the receiver in place exactly as the reaction says and returns the pulses it sends; a crash changes nothing |
| PulseWatch.Network.PushButton | D20/d20p2.py:116-151 | the loop's outcome is the simulated run from no presses and no records |
| PulseWatch.Network.TakeOut | D20/d20p2.py:130-145 | one pass on a non-empty queue is exactly one step of the simulation: a crash, the fourth record, or the next state with the modules as processed |
| PulseWatch.Record | D20/d20p2.py:140-147 | appends the press count for each watched high pulse, stopping at the fourth record |
| PulseWatch.HitsPrefix | D20/d20p2.py:140-147 | the records from the first pulses sent are a prefix of the records from all of them |
| Lenses.HashSnoc | D15/d15p2.py:134-140 | one more character moves the HASH by one step: add its code, times 17, modulo 256 |
| Lenses.HashExamples | D15/d15p2.py:134-140 | the HASH of the empty string is 0, of `HASH` is 52, and `rn`, `cm`, `qp` land in boxes 0, 0 and 1 |
| Lenses.ConvertToAscii | D15/d15p2.py:130-140 | the loop computes the HASH of the segment |
| Lenses.ParseStepShape | D15/d15p2.py:148-158 | a removal's label is what precedes the first `-`; an insertion is `label=focal` with no other `=`; both carry the label's HASH as their box |
| Lenses.ParseStep | D15/d15p2.py:148-158 | one instruction of `parse_instructions`, `None` where the source raises; `Lenses.ParseStepShape` states its fields |
| Lenses.ParseAllSteps | D15/d15p2.py:142-161 | one step per instruction, each boxed by its label's HASH; a removal carries the focal length left over from the step before it |
| Lenses.ParseInstructions | D15/d15p2.py:146-161 | the loop builds exactly the parsed list |
| Lenses.IndexOf | D15/d15p2.py:172-173 | the position `list.remove` takes out: the first occurrence of the label |
| Lenses.Apply | D15/d15p2.py:163-191 | one step of `process_instructions`; `Lenses.ApplyFrame` states what it changes and `Lenses.ApplyKeepsWellFormed` the invariant it keeps |
| Lenses.ApplyAll | D15/d15p2.py:163-191 | applying the steps in order keeps 256 boxes |
| Lenses.ApplyFrame | D15/d15p2.py:163-191 | `-` takes the label out of its box if it is there (others keep their order, an emptied box becomes `None`), else nothing changes; `=` updates the focal length in place if the label is there, else appends it (or starts an empty box with it); no other box changes |
| Lenses.RemoveKeepsBox | D15/d15p2.py:172-175 | removing a lens from a box of several keeps the box well formed and the lens gone |
| Lenses.InsertKeepsBox | D15/d15p2.py:181-191 | appending a new lens of that box keeps the box well formed |
| Lenses.ApplyKeepsWellFormed | D15/d15p2.py:163-191 | every step keeps each lens in its own HASH box, once, with a focal length; afterwards a removed label is absent from its box and an inserted one present |
| Lenses.ApplyAllKeepsWellFormed | D15/d15p2.py:163-191 | a run of steps keeps that invariant |
| Lenses.LensesPowerSnoc | D15/d15p2.py:199-204 | each lens adds (box + 1) * (slot + 1) * focal length |
| Lenses.PowerDefined | D15/d15p2.py:193-205 | on well-formed boxes the focusing power is defined: every focal length reads as a number |
| Lenses.LensesDefined | D15/d15p2.py:199-204 | a box whose lenses all have numeric focal lengths has a power |
| Lenses.Facility.constructor | D15/d15p2.py:216-217 | 256 empty boxes and no focal lengths |
| Lenses.Facility.ProcessInstructions | D15/d15p2.py:163-191 | updates the boxes and focal lengths in place to exactly the result of applying the steps in order |
| Lenses.Facility.FocusingPower | D15/d15p2.py:193-205 | the loop computes the focusing power, `None` standing for the `int()` failure |
| Lenses.NoPowerAfter | D15/d15p2.py:199-204 | once a lens has no numeric focal length the box's sum fails |
| Lenses.AnyPowerFails | D15/d15p2.py:196-204 | a failing box makes the whole sum fail |
| Lenses.PowerPrefixNone | D15/d15p2.py:196-204 | a failure among the first boxes makes the whole sum fail |
| CamelCards.CardRank | D07/d7p1.py:148-164 | faces rank A 14, K 13, Q 12, J 11, T 10; a numeral ranks as its value; any other card has no rank, standing for the failing `int()` |
| CamelCards.TypeOf | D07/d7p1.py:174-188 | the type digit is between 1 and 7; it is 7 exactly for five of a kind and 1 exactly when no test holds |
| CamelCards.SomeCountIsMultiset | D07/d7p1.py:112-146 | "some card of the hand occurs exactly n times" is a statement about the hand's multiset of cards |
| CamelCards.FiveIsMultiset | D07/d7p1.py:105-110 | five of a kind means the multiset holds one card only |
| CamelCards.PairsAreMultiset | D07/d7p1.py:133-139 | the pairs of two pair are exactly the cards the multiset holds twice |
| CamelCards.TypeIgnoresOrder | D07/d7p1.py:174-188 | the type depends only on which cards the hand holds, not on their order |
| CamelCards.Pow16Add | D07/d7p1.py:190-191 | the place weights multiply: 16^(m+n) = 16^m * 16^n |
| CamelCards.Ranks | D07/d7p1.py:190-191 | the hand ranks when every card has a rank, and then card by card |
| CamelCards.IndexOfNone | D07/d7p1.py:190-191 | the position where ranking fails is a card without a rank |
| CamelCards.HandRanker | D07/d7p1.py:166-193 | the loop computes the key: type times 0x100000 plus each card's rank at its hex place |
| CamelCards.HandKey | D07/d7p1.py:166-193 | `hand_ranker` as a value, `None` for a card without rank; `CamelCards.HandRanker` computes it and `CamelCards.TypeOutranks` and `CamelCards.WithinTypeIsLexicographic` state its order |
| CamelCards.RanksPrefixNone | D07/d7p1.py:190-191 | a card without rank anywhere makes the whole hand fail |
| CamelCards.RanksAreHexDigits | D07/d7p1.py:190-191 | every rank fits one hex digit |
| CamelCards.TypeOutranks | D07/d7p1.py:166-193 | a hand of a stronger type gets a larger key than any hand of a weaker type |
| CamelCards.SameTypeByCards | D07/d7p1.py:166-193 | between five-card hands of one type, the one whose ranks come first card by card gets the smaller key |
| CamelCards.HexBound | D07/d7p1.py:190-191 | hex digits read in base 16 stay below 16 to the number of digits |
| CamelCards.HexSnoc | D07/d7p1.py:190-191 | one more digit is 16 times the reading so far plus the digit |
| CamelCards.CardSumIsHex | D07/d7p1.py:190-191 | up to five cards, the card part is the base-16 reading of the ranks, shifted to fill five digits |
| CamelCards.CardSumFirstFive | D07/d7p1.py:190-191 | cards after the fifth add nothing (the shifted weight is 0) |
| CamelCards.CardSumBound | D07/d7p1.py:190-191 | the card part stays below 0x100000, so it never reaches the type digit |
| CamelCards.TypeDominates | D07/d7p1.py:174-191 | a larger type digit gives a larger key whatever the cards |
| CamelCards.LeadingDigit | D07/d7p1.py:190-191 | a larger leading digit outweighs any lower digits |
| CamelCards.HexLex | D07/d7p1.py:190-191 | for equal lengths, base-16 reading preserves the lexicographic order of digit strings |
| CamelCards.WithinTypeIsLexicographic | D07/d7p1.py:166-193 | with the same type digit, the key order is the card-by-card order of the ranks |
| CamelCards.Insert | D07/d7p1.py:202 | inserting a hand adds exactly that hand |
| CamelCards.InsertSorted | D07/d7p1.py:202 | inserting after every hand with a key not larger keeps the list sorted by key |
| CamelCards.InsertWithKey | D07/d7p1.py:202 | an inserted hand lands after every hand of its own key; the hands of every other key keep their order |
| CamelCards.SortByKeyStable | D07/d7p1.py:202 | the hands of any one key come out of the sort in the order they went in, as Python's stable `sorted` keeps them |
| CamelCards.SortByKeyOrdered | D07/d7p1.py:202 | the sort is a permutation of the hands, ascending by key |
| CamelCards.SortByKeyCorrect | D07/d7p1.py:202 | `sorted(hands, key=hand_ranker)` is a permutation of the hands, ascending by key, and stable: hands of equal key keep their input order |
| CamelCards.SortByKey | D07/d7p1.py:202 | `sorted` by key; `CamelCards.SortByKeyCorrect` proves it a stable permutation in ascending order |
| CamelCards.Winnings | D07/d7p1.py:204-206 | the loop adds each bid times its 1-based position, `None` standing for a bid `int()` rejects |
| CamelCards.WinningsPrefixNone | D07/d7p1.py:204-206 | a bad bid anywhere makes the total fail |
| CamelCards.WinningsAreSuffixSums | D07/d7p1.py:204-206 | the winnings are the sum, over every position, of all bids from that position on: each bid counts once per rank up to its own |
| CamelCards.TotalSnocFront | D07/d7p1.py:204-206 | one more bid adds itself to the plain total |
| CamelCards.SuffixSumsSnoc | D07/d7p1.py:204-206 | the bid in the last position counts that many times |
| CamelCards.TotalWinnings | D07/d7p1.py:195-206 | `main`: key every hand, sort, sum position times bid; `CamelCards.WinningsAreSuffixSums` states the sum |
| JokerCards.JokerRank | D7/d7p2.py:121-137 | `J` ranks 0, below every card but `0`; other cards rank as in part one, at most 14 |
| JokerCards.JokerTypeOf | D7/d7p2.py:145-162 | the type digit is between 1 and 7, 7 exactly for the joker five of a kind; a hand holding `J` is at least one pair |
| JokerCards.HasCountAtSomeIndex | D7/d7p2.py:61-78 | testing counts over `set(hand)` and over the hand itself agree |
| JokerCards.JokersNeverWeaken | D7/d7p2.py:52-119 | the joker rules never give a hand a weaker type than part one's rules |
| JokerCards.NoJokerSameType | D7/d7p2.py:52-119 | without a `J` both rules give the same type |
| JokerCards.JokerHandRanker | D7/d7p2.py:139-166 | the loop computes the part-two key |
| JokerCards.JokerTypeOutranks | D7/d7p2.py:139-166 | a stronger joker type gets a larger key than any weaker one |
| JokerCards.JokerSameTypeByCards | D7/d7p2.py:139-166 | between five-card hands of one joker type, keys follow the card-by-card rank order, `J` lowest |
| Springs.SumOverBound | D12/d12p1.py:140-162 | a sum of verdicts of at most one over all settlings is at most two to the number of unknowns |
| Springs.Backtrack | D12/d12p1.py:140-162 | `backtrack` from `index`, settling each unknown as `#` and as `.`; `Springs.BacktrackCounts` states what it adds up |
| Springs.IsValid | D12/d12p1.py:164-179 | `is_valid`, with `None` for the `IndexError` of running out of sizes; `Springs.IsValidMeansRuns` states when it holds |
| Springs.NonEmpty | D12/d12p1.py:174 | the list comprehension keeps only non-empty groups |
| Springs.BacktrackCounts | D12/d12p1.py:140-162 | `backtrack` adds up `is_valid` over every way of settling the remaining unknowns as `#` or `.` |
| Springs.BacktrackBound | D12/d12p1.py:140-162 | part one's count is at most two to the number of unknowns |
| Springs.SettledCount | D12/d12p1.py:170-174 | on a settled record the number of `#` is the sum of its run lengths |
| Springs.OneRun | D12/d12p1.py:174 | a record without `.` is a single group, or none when empty |
| Springs.SettledGroupsDamaged | D12/d12p1.py:174-176 | every group of a settled record consists of damaged springs only |
| Springs.CheckGroupsRuns | D12/d12p1.py:175-179 | with equal totals the group loop never runs out of sizes (no `IndexError`), and with positive sizes it passes exactly when the group lengths are the sizes |
| Springs.IsValidMeansRuns | D12/d12p1.py:164-179 | `is_valid` on a settled record never fails, and with positive sizes it holds exactly when the runs of `#` have those sizes in order |
| Springs.RunAtLeast | D12/d12p2.py:90-95 | a record opening with m damaged springs has a first run of at least m |
| Springs.Count | D12/d12p2.py:73-107 | part two's one-pass `backtrack` without its cache; `Springs.CountCounts` and `Springs.CountMatchesBacktrack` state what it counts |
| Springs.CountSettled | D12/d12p2.py:73-107 | on a settled record the one-pass count is 1 exactly when the record, with the open run's `damaged_seen` springs in front, has runs of the given sizes, else 0 |
| Springs.CountSettledDamaged | D12/d12p2.py:90-95 | the `#` case of that statement |
| Springs.CountCounts | D12/d12p2.py:107-110 | the one-pass count of a record with unknowns adds up its verdicts over every settling |
| Springs.CountMatchesBacktrack | D12/d12p2.py:73-110 | with positive sizes part two's count equals part one's exhaustive count |
| Springs.Copies | D12/d12p2.py:69 | `[springs] * 5` holds n copies of the record |
| Springs.Repeat | D12/d12p2.py:68 | `conditions * 5` is n times as long |
| Springs.JoinCopies | D12/d12p2.py:69 | joining n copies with `?` gives n times the length plus n - 1 joints, each a new unknown |
| Springs.RepeatSum | D12/d12p2.py:68 | repeated sizes add up to n times as much and stay positive |
| Springs.UnfoldShape | D12/d12p2.py:64-69 | the unfolded record is five times as long plus four joints, each joint a new unknown; the sizes add up to five times as much and stay positive |
| Springs.UnfoldSplits | D12/d12p2.py:69 | a record with no unknowns is recovered by splitting the unfolded one at `?` |
| Springs.SumOfArrangements | D12/d12p1.py:181-189 | part one's total is the sum of `backtrack` over the records |
| Springs.SumOfCounts | D12/d12p2.py:112-120 | part two's total is the sum of the one-pass counts |
| Springs.TotalsAgree | D12/d12p2.py:112-120 | with positive sizes both parts' totals agree on the same records |
| Almanac.TraverseMaps | D5P1/main.py:179-197 | the loop computes the seed's value after all maps, `None` standing for a row `int()` rejects |
| Almanac.FirstHolding | D5P1/main.py:189-196 | the first row whose source range holds the value: it holds it and no earlier row does; `None` when no row does |
| Almanac.MapValue | D5P1/main.py:189-196 | one map applied to a value: the first row holding it shifts it, and no row leaves it; `Almanac.MapValueFirstHolding` states that |
| Almanac.MapValueFirstHolding | D5P1/main.py:189-196 | the first holding row shifts the value by its destination minus its source; a value no row holds passes through unchanged |
| Almanac.MalformedAfterMatch | D5P1/main.py:189-196 | a malformed row after the first match is never read (`break`), so it is no error |
| Almanac.TraverseAppend | D5P1/main.py:185-197 | traversing two runs of maps one after the other is traversing their concatenation |
| Almanac.Traverse | D5P1/main.py:185-197 | every map in order; `Almanac.TraverseMaps` and `Almanac.TraverseAppend` state its properties |
| Almanac.Lowest | D5P1/main.py:207-212 | `min(locations)` is a location of some seed and no larger than any seed's location; no seeds (the `ValueError` of `min`) or a failing traversal gives `None` |
| Almanac.FeedAppend | D5P1/main.py:155-171 | the line loop handles one more line by one more step |
| Almanac.MapParser | D5P1/main.py:138-177 | the loop builds exactly the parsed seeds and maps |
| Almanac.FeedNone | D5P1/main.py:160-161 | a line whose seeds `int()` rejects fails the whole parse |
| Almanac.FeedKeepsRows | D5P1/main.py:155-171 | each header opens one map, every map but the open one is closed, and the rows of all maps are the data rows in input order |
| Almanac.FeedOpenMap | D5P1/main.py:174-175 | the map still open at the end holds the rows after the last header |
| Almanac.ParseKeepsRows | D5P1/main.py:138-177 | `map_parser` returns every data row after the first header, in order, and one map per header, except that a last header with no rows after it adds no map |
| Rocks.Stop | D14/d14p1.py:126-135 | the scan stops at the first `#` or `O` after the rock, or at the row end |
| Rocks.RollRow | D14/d14p1.py:118-140 | the row loop rolls the row in place to exactly the scan's result |
| Rocks.Destination | D14/d14p1.py:126-137 | the inner scan finds the cell just before the next blocking cell and the number of spaces rolled |
| Rocks.RollAtKeepsWalls | D14/d14p1.py:120-140 | rolling one rock moves no `#` |
| Rocks.RollAtKeepsSegments | D14/d14p1.py:120-140 | a rock rolls only within its segment between `#` cells |
| Rocks.RollAtSettles | D14/d14p1.py:120-140 | scanning one more column keeps the scanned part settled |
| Rocks.RollSpec | D14/d14p1.py:118-140 | rolling a row keeps every `#` where it was, keeps each segment's cells, and leaves every round rock against a `#`, another round rock or the row end |
| Rocks.TurnsAdd | D14/d14p1.py:98-104 | turning a then b times is turning a + b times |
| Rocks.TurnPlatform | D14/d14p1.py:103 | `zip(*rock_map)` reversed is a clockwise turn that swaps the platform's height and width |
| Rocks.HalfTurn | D14/d14p1.py:98-104 | two turns reverse both the rows and the columns |
| Rocks.TurnFour | D14/d14p2.py:132 | four quarter turns restore the platform, so turning back by `4 - rotations` restores the orientation |
| Rocks.TurnsPlatform | D14/d14p1.py:98-104 | an even number of turns keeps the shape, an odd number swaps height and width |
| Rocks.RollGrid | D14/d14p1.py:114-142 | every row is rolled; an empty platform is the `IndexError` of `rotated_rocks[0]` |
| Rocks.RollRotated | D14/d14p1.py:118-140 | the row loop rolls every row in place |
| Rocks.RollGridPlatform | D14/d14p1.py:118-142 | rolling keeps the platform's shape and cube rocks and each row's cells |
| Rocks.TurnsSameWalls | D14/d14p2.py:89-95 | turning two platforms with the same cube rocks keeps them alike |
| Rocks.Rotations | D14/d14p2.py:100-104 | quarter turns per direction: N 1, E 0, S 3, W 2; another direction is the `KeyError` |
| Rocks.RollTowardPlatform | D14/d14p2.py:97-132 | rolling in any of the four directions keeps the shape, the cube rocks and the number of round rocks |
| Rocks.RollTurned | D14/d14p2.py:97-132 | turning n times, rolling and turning 4 - n times more keeps the shape and the cube rocks |
| Rocks.SpinPlatform | D14/d14p2.py:135-154 | one spin cycle (N, W, S, E) keeps the shape, the cube rocks and the number of round rocks |
| Rocks.Spin | D14/d14p2.py:135-154 | `roll_rocks_one_cycle`, north, west, south and east in turn; `Rocks.SpinPlatform` states what it keeps |
| Rocks.Next | D14/d14p2.py:185 | the spin taken as a total step for the cycle search; `Rocks.SpinCycleLoad` states the load after the target number of them |
| Rocks.GridCountRowwise | D14/d14p2.py:156-166 | rows with the same cells hold as many round rocks |
| Rocks.TurnWSnoc | D14/d14p1.py:103 | turning a platform with one more row at the bottom puts that row's cells at the front of the turned rows |
| Rocks.TurnWCount | D14/d14p1.py:103 | a turn keeps the number of round rocks |
| Rocks.TurnsCount | D14/d14p1.py:98-104 | any number of turns keeps the number of round rocks |
| Rocks.RollGridCount | D14/d14p1.py:118-142 | rolling keeps the number of round rocks |
| Rocks.EastLoadPrefix | D14/d14p1.py:144-154 | putting a column in front of every row adds its rocks and one more unit for every other rock |
| Rocks.NorthLoadSnoc | D14/d14p2.py:156-166 | one more row at the bottom adds its rocks and one more unit for every rock above |
| Rocks.NorthLoad | D14/d14p2.py:156-166 | part two's `compute_load`, a rock in row `r` of `h` weighing `h - r`; `Rocks.NorthLoadSnoc` states how it grows |
| Rocks.NorthIsTurnedEast | D14/d14p2.py:156-166 | part two's load on a platform is part one's load on the platform turned once: a rock k rows above the bottom weighs k + 1 either way |
| Rocks.ComputeLoad | D14/d14p1.py:144-154 | the loop adds `col_id + 1` for every round rock |
| Rocks.ComputeNorthLoad | D14/d14p2.py:156-166 | the loop adds the number of rows from the rock's row to the bottom for every round rock |
| Rocks.RollAtRaisesLoad | D14/d14p1.py:120-140 | rolling toward the row end never lowers part one's load, and a rock that moves raises it |
| Rocks.RollRaisesLoad | D14/d14p1.py:118-140 | rolling a whole row never lowers its load |
| Rocks.RollNorthSpec | D14/d14p1.py:106-142 | part one's roll: each turned row is a column read from the bottom up and rolled, every round rock ending against a cube rock, another round rock or the north edge; another direction gives nothing |
| Rocks.RollTowardNorthSettles | D14/d14p2.py:97-132 | after part two's roll north no round rock has an empty cell right above it |
| Rocks.IterPlatform | D14/d14p2.py:135-154 | every spin succeeds and keeps the platform's shape, cube rocks and number of round rocks |
| Rocks.SpinCycleLoad | D14/d14p2.py:168-209 | when the search finishes, its answer is the north load after exactly 1000000000 spin cycles |
| Cycles.IterAdd | D14/d14p2.py:168-209 | stepping a then b times is stepping a + b times |
| Cycles.IterPeriodic | D14/d14p2.py:194-199 | once the states return to an earlier one they repeat with that period |
| Cycles.Remaining | D14/d14p2.py:201 | `(target - cycles - period) % period + 1` more steps land on the target's state |
| Cycles.SkipAhead | D14/d14p2.py:176-207 | the cache search, when it finishes, returns exactly the state after the target number of steps |
| Cycles.SeenIndex | D14/d14p2.py:182-187 | every cached state was reached at an earlier step |
| Cycles.CacheStep | D14/d14p2.py:186 | caching a new state keeps the cache complete and the states seen distinct |
| Cycles.FindRepeat | D14/d14p2.py:181-188 | the first loop stops at the first state that repeats an earlier one, with the cache mapping each earlier state to its successor |
| Cycles.Period | D14/d14p2.py:194-199 | the second loop counts exactly the period of the repetition |
| Cycles.FollowCache | D14/d14p2.py:204-206 | the last loop of the search, following the cache `steps` times, ends at the state that many steps on |
| Oasis.Diffs | D09/d9p1.py:122 | the list of differences is one shorter than the history, and empty for an empty history |
| Oasis.DiffsAt | D09/d9p1.py:122 | each difference is a value minus the one before it |
| Oasis.DistinctOne | D09/d9p1.py:125 | `len(set(diffs)) == 1` holds exactly for a non-empty constant row |
| Oasis.NextValue | D09/d9p1.py:117-128 | `get_next_val` succeeds exactly on histories of at least two values; an empty history is the `IndexError` of `sequence[-1]`, and a single value reaches the same error one call down, on the empty list of differences |
| Oasis.PrevValue | D9/d9p2.py:52-63 | `get_prev_val` succeeds exactly on histories of at least two values |
| Oasis.ConstantRow | D09/d9p1.py:125-126 | a constant row extends by its own value, forwards and backwards |
| Oasis.NextIsExtrapolated | D09/d9p1.py:117-128 | stopping at the first constant row of differences gives the same value as extrapolating down to all zeros and back up, as the puzzle describes |
| Oasis.PrevIsBackcast | D9/d9p2.py:52-63 | likewise for the previous value |
| Oasis.DiffsReverse | D9/d9p2.py:57 | reading a history backwards negates and reverses its differences |
| Oasis.ExtrapolatedNegate | D09/d9p1.py:117-128 | extrapolation commutes with negation |
| Oasis.BackcastIsReversedExtrapolation | D9/d9p2.py:52-63 | going back in time is extrapolating the reversed history |
| Oasis.PrevIsNextOfReverse | D9/d9p2.py:52-63 | part two's answer on a history is part one's on the reversed history |
| Oasis.SampleArithmetic | D09/d9p1.py:91-96 | `0 3 6 9 12 15` extends to 18 and back to -3 |
| Oasis.SampleTriangular | D09/d9p1.py:91-96 | `1 3 6 10 15 21` extends to 28 and back to 0 |
| Oasis.SampleCubic | D09/d9p1.py:91-96 | `10 13 16 21 30 45` extends to 68 and back to 5 (next values add up to 114, previous ones to 2) |
| Mirrors.AgreeIsCommonPrefix | D13/d13p1.py:128-138 | `are_subsegments_mirrors` holds exactly when the two lists match on their common prefix |
| Mirrors.ReflectsIsLine | D13/d13p1.py:145-149 | the test at row i succeeds exactly when a line of reflection lies below row i: every row pair around it that exists matches |
| Mirrors.OuterRows | D13/d13p1.py:148 | the reversed rows above and the rows below agree exactly when they pair up around the line |
| Mirrors.FindFromExceptSpec | D13/d13p2.py:136-148 | the scan returns the first line of reflection whose value is not the original one, and nothing only when there is none |
| Mirrors.FindFromIsExcept | D13/d13p2.py:136-142 | part one's scan is part two's with no original value |
| Mirrors.FindMirrorLine | D13/d13p1.py:140-150 | `find_mirror_line` finds the line with the fewest rows above it, and returns -1 only when there is none |
| Mirrors.TurnedRows | D13/d13p1.py:122-126 | two rows of the turned pattern are equal exactly when the columns they came from are |
| Mirrors.TurnedLine | D13/d13p1.py:122-126 | turning the pattern turns vertical lines of reflection into horizontal ones |
| Mirrors.MirrorValueSpec | D13/d13p1.py:153-171 | the first horizontal line counts 100 per row above it; without one, the first vertical line counts its columns; without either the program stops |
| Mirrors.MirrorValue | D13/d13p1.py:153-171 | part one's `get_mirror_value`, `None` where the program exits; `Mirrors.MirrorValueSpec` states its value |
| Mirrors.ExceptWithoutOriginal | D13/d13p2.py:123-150 | with no original value part two's scoring is part one's, with 0 where part one exits |
| Mirrors.MirrorValueExceptSpec | D13/d13p2.py:123-150 | the value found differs from the original, it is 0 exactly when no line of either kind qualifies, and otherwise it comes from the first qualifying line |
| Mirrors.ExceptSkipsOriginal | D13/d13p2.py:141-148 | a value found is never the original one |
| Mirrors.Flipped | D13/d13p2.py:166 | `.` becomes `#` and anything else becomes `.` |
| Mirrors.Flip | D13/d13p2.py:166-168 | the new pattern differs from the old in exactly the one flipped cell |
| Mirrors.SmudgeFound | D13/d13p2.py:163-171 | when the search succeeds it names the first cell, in row-major order, whose flip gives a new nonzero value |
| Mirrors.SmudgeNone | D13/d13p2.py:163-174 | the search fails exactly when no cell's flip gives a new nonzero value |
| Mirrors.SmudgeValueSpec | D13/d13p2.py:152-174 | the smudge value is that of the first cell whose flip gives a nonzero value other than the pattern's own; the program exits only when no cell does |
| Mirrors.SmudgeValue | D13/d13p2.py:152-174 | `get_smudge_value`; `Mirrors.SmudgeValueSpec` states its value |
| Mirrors.SamplePartOne | D13/d13p1.py:85 | on the sample: five columns left of a vertical line and four rows above a horizontal line, 405 in all |
| Mirrors.LikeSampleB | D13/d13p2.py:163-171 | a pattern that agrees with the second sample below its first row keeps the line with four rows above, gains at most the line with one row above, and has no vertical line |
| Mirrors.SampleBEarlyFlips | D13/d13p2.py:163-171 | flipping one of the first four cells of the second sample finds nothing new |
| Mirrors.SampleBSmudge | D13/d13p2.py:163-171 | flipping the fifth cell of its first row gives a new line with one row above |
| Mirrors.SampleASmudge | D13/d13p2.py:163-171 | flipping the top-left cell of the first sample gives a horizontal line with three rows above |
| Mirrors.SamplePartTwo | D13/d13p2.py:67 | part two on the sample: 300 and 100, 400 in all |
| Galaxies.FreeBeforeGrows | D11/d11p1.py:141-158 | counting free rows before each row never decreases, so rows keep their order once shifted |
| Galaxies.Spread | D11/d11p1.py:141-144 | the widened list has one extra item per free entry |
| Galaxies.SpreadAt | D11/d11p1.py:141-158 | item i lands at i plus the number of free rows or columns before it |
| Galaxies.SpreadOther | D11/d11p1.py:141-158 | every position that is not an inserted filler holds an original item at its shifted place |
| Galaxies.TallRows | D11/d11p1.py:141-144 | every row of the taller map is an original row at its shifted place or an inserted row of dots |
| Galaxies.TallColFlags | D11/d11p1.py:141-154 | the inserted rows hold no galaxy, so the same columns stay free |
| Galaxies.InsertColumn | D11/d11p1.py:156-157 | `row.insert(at, '.')` on every row puts one dot at that index |
| Galaxies.StackRows | D11/d11p1.py:140-144 | the row loop builds the taller map |
| Galaxies.ExpandMap | D11/d11p1.py:135-159 | `expand_map` doubles every galaxy-free row and column |
| Galaxies.Expanded | D11/d11p1.py:135-159 | `expand_map` of part one; `Galaxies.TallRows`, `Galaxies.ExpandedKeeps` and `Galaxies.ExpandedComes` state what it keeps |
| Galaxies.WidenColumns | D11/d11p1.py:151-158 | the column loop inserts a `.` right after every free column of every row |
| Galaxies.SpreadStep | D11/d11p1.py:153-157 | one more free column gets its dot at the column's index plus the free columns so far |
| Galaxies.RowGalaxiesSpec | D11/d11p1.py:167-170 | a row's galaxies are exactly its `#` cells, left to right |
| Galaxies.GalaxiesSpec | D11/d11p1.py:161-171 | `get_galaxy_coords` lists exactly the `#` cells, in row-major order |
| Galaxies.SameIncreasing | D11/d11p1.py:161-171 | two row-major lists with the same members are the same list |
| Galaxies.GalaxyCoords | D11/d11p1.py:161-171 | the loops list exactly the galaxies |
| Galaxies.ShiftedIncreasing | D11/d11p1.py:135-159 | shifting galaxies to their expanded places keeps their row-major order |
| Galaxies.ExpandedKeeps | D11/d11p1.py:135-159 | a galaxy of the map is a galaxy of the expanded map at its shifted place |
| Galaxies.ExpandedComes | D11/d11p1.py:135-159 | every galaxy of the expanded map is a shifted galaxy of the map |
| Galaxies.ExpandedGalaxies | D11/d11p1.py:135-171 | expanding moves each galaxy to its shifted place and keeps their order |
| Galaxies.ExpansionKeepsGalaxies | D11/d11p1.py:135-159 | expansion keeps the number of galaxies |
| Galaxies.Factors | D11/d11p2.py:43-64 | one factor per row or column |
| Galaxies.FactorSum | D11/d11p2.py:88-91 | the factors over a span add up to its length plus `k - 1` for each free row or column in it |
| Galaxies.DoubledDistance | D11/d11p2.py:86-93 | with factor 2, part two's distance between two galaxies is part one's Manhattan distance between their shifted places |
| Galaxies.UnitDistance | D11/d11p2.py:86-93 | with factor 1 it is the plain Manhattan distance |
| Galaxies.DoubledPathSum | D11/d11p2.py:78-95 | with factor 2 part two sums the same distances as part one over the shifted galaxies |
| Galaxies.UnitPathSum | D11/d11p2.py:78-95 | with factor 1 part two sums plain Manhattan distances |
| Galaxies.PartsAgree | D11/d11p2.py:78-95 | widening the map and summing plain distances gives part two's answer with expansion factor 2 |
| Galaxies.ExpandFactors | D11/d11p2.py:43-64 | the factor lists hold `k` for every galaxy-free row or column and 1 for the others |
| Galaxies.PartOne | D11/d11p1.py:187-199 | part one's answer is the sum, over every pair, of Manhattan distances on the expanded map |
| Galaxies.PartTwo | D11/d11p2.py:97-113 | part two's answer is the sum, over every pair, of the factors crossed between them |
| Pipes.Exits | D10/d10p1.py:138-143 | each of the six pipes has two distinct unit exits; any other symbol is the dictionary's `KeyError` |
| Pipes.AnimalListsConnect | D10/d10p1.py:146-160 | the symbol lists checked around the animal are exactly the pipes with an exit pointing back at it |
| Pipes.PyIndex | D10/d10p1.py:200 | Python indexing: a negative index counts from the end, and anything out of range is an `IndexError` |
| Pipes.FromAnimalConnects | D10/d10p1.py:146-160 | the animal steps to the first neighbour (above, below, left, right) whose pipe connects back to it |
| Pipes.ConnectingSteps | D10/d10p1.py:146-160 | a neighbour found from the animal is one step away |
| Pipes.OnwardLeaves | D10/d10p1.py:162-170 | entering a pipe through one exit, the walk leaves through the other |
| Pipes.NextStep | D10/d10p1.py:129-170 | `get_next_step` always moves one tile |
| Pipes.IndexOf | D10/d10p1.py:182-183 | `row.index('S')` is the first `S` of the row |
| Pipes.AnimalInSpec | D10/d10p1.py:179-183 | the animal is at the first `S` of the last row that has one, and there is none when no row has an `S` |
| Pipes.FindAnimal | D10/d10p1.py:179-183 | the search loop finds that position |
| Pipes.ClosedTrail | D10/d10p1.py:193-205 | a walk that closes ends on the animal, meets no `S` before that, moves one tile per step and takes at most `fuel` steps |
| Pipes.Walk | D10/d10p1.py:193-205 | the walk of the `while` loop from the animal: `Closed` with the tiles stepped on in order, ending at the animal; `NoWay` when the animal has no way out, `Crash` where the source raises and `OutOfFuel` past `fuel` steps; `Pipes.ClosedTrail` states what a closed walk is |
| Pipes.WalkStep | D10/d10p1.py:193-205 | one turn of the loop either ends the walk or steps on and continues from the next tile |
| Pipes.GetFarthestPoint | D10/d10p1.py:173-205 | `get_farthest_point` returns half the number of steps of the closed loop, or 0 when the animal has no way out |
| Pipes.StepsOf | D10/d10p1.py:196-205 | the count of steps gives half the loop exactly when the walk ends |
| Pipes.TakeTurn | D10/d10p1.py:194-205 | one turn of the loop: it stops with the walk's outcome, or moves to a connected tile that is not `S` |
| Pipes.CountRound | D10/d10p1.py:187-205 | the loop counts the tiles of the walk from the animal |
| Pipes.GetPipeCoordinates | D10/d10p2.py:178-210 | `get_pipe_coordinates` returns the tiles of the loop in walk order, ending at the animal, or 0 when the animal has no way out |
| Pipes.CollectPipes | D10/d10p2.py:191-210 | the loop collects exactly the walk's tiles |
| Pipes.FarthestIsHalfTheLoop | D10/d10p1.py:205 | part one's answer is half the length of the loop part two collects |
| Pipes.RayCountsDiagonal | D10/d10p2.py:247-266 | the intended ray counts each crossing on the diagonal inside the maze exactly once |
| Pipes.DiagonalStep | D10/d10p2.py:257-261 | the diagonal is its first tile, when that tile is a crossing, followed by the diagonal from the next tile |
| Pipes.SquareRaysAgree | D10/d10p2.py:251-257 | on a square maze the ray as written matches the intended one |
| Pipes.RayAsWritten | D10/d10p2.py:251-261 | the as-written half of the D10 Findings row: the crossings counted along the diagonal while the row is below the width and the column below the height; `Pipes.TallMazeMisread` and `Pipes.WideMazeMisread` exhibit the difference |
| Pipes.Ray | D10/d10p2.py:251-261 | the corrected half of the D10 Findings row: the same count with the row bounded by the height and the column by the width; `Pipes.RayCountsDiagonal` proves it counts every crossing on the diagonal inside the maze once |
| Pipes.TallMazeMisread | D10/d10p2.py:253-257 | on a maze taller than it is wide, the ray as written stops at the maze's width and misses the crossing the intended ray counts |
| Pipes.WideMazeMisread | D10/d10p2.py:253-257 | on a maze wider than it is tall, the ray as written stops at the maze's height and misses the crossing the intended ray counts |
| Pipes.Rows | D10/d10p2.py:122-136 | the array's rows all have the maze's width |
| Pipes.ClosedCharted | D10/d10p2.py:207 | every tile of a closed walk lies inside the maze |
| Pipes.IsPointInPoly | D10/d10p2.py:247-266 | `is_point_in_poly` with the intended ray of the D10/d10p2.py:251-257 Findings row: a tile is inside exactly when the diagonal ray, bounded by the maze's height and width, crosses the loop an odd number of times, ignoring `L` and `7` |
| Pipes.RayReadsLoop | D10/d10p2.py:258 | the ray reads only the loop's tiles, so marking the other tiles does not change later rays |
| Pipes.ClassifyRow | D10/d10p2.py:290-296 | one row of the marking loop sets each tile off the loop to `I` or `O` by the intended ray, and leaves the loop and every other row unchanged |
| Pipes.Classify | D10/d10p2.py:289-296 | the marking loop turns every tile off the loop into `I` when the intended ray crosses the original loop an odd number of times, and `O` otherwise |
| Pipes.CountsAgree | D10/d10p2.py:270-280 | counts over two grids of the same shape agree when their selections agree tile by tile |
| Pipes.CountEnclosed | D10/d10p2.py:270-280 | `count_enclosed` counts the tiles that are neither `O` nor on the loop and marks them `I` |
| Pipes.MarkedEnclosed | D10/d10p2.py:282-302 | after marking, the tiles counted are exactly the tiles the intended ray finds enclosed in the original maze |
| Pipes.PartTwo | D10/d10p2.py:282-302 | part two's answer, with the intended ray, is the number of enclosed tiles of the original maze |
| Lagoon.Vector | D18/d18p1.py:28 | each direction is the unit vector its letter names |
| Lagoon.AheadStep | D18/d18p1.py:39-40 | each step of an instruction moves by its unit vector |
| Lagoon.TravelFrom | D18/d18p1.py:35-44 | following a plan from any start is following it from the origin, shifted by that start |
| Lagoon.TravelAppend | D18/d18p1.py:35-44 | following two plans in turn is following the second from where the first ends |
| Lagoon.Segment | D18/d18p1.py:60-63 | an instruction digs one cell per unit of distance |
| Lagoon.TraceLength | D18/d18p2.py:46 | part one's edge list is as long as part two's boundary |
| Lagoon.Box | D18/d18p1.py:30-46 | the bounding box contains the origin |
| Lagoon.BoxHolds | D18/d18p1.py:36-46 | the origin and every instruction's end point lie in the box |
| Lagoon.BoxTight | D18/d18p1.py:36-46 | each bound of the box is reached by the origin or by some end point |
| Lagoon.SegmentInBox | D18/d18p1.py:56-63 | every cell dug lies between its instruction's two end points, so it lies in the box |
| Lagoon.BoundingBox | D18/d18p1.py:30-44 | the first loop of `dig` computes that box |
| Lagoon.DugGrid | D18/d18p1.py:45-50 | the grid is as tall and as wide as the box |
| Lagoon.CellInGrid | D18/d18p1.py:53-63 | after the walk is shifted, every cell it digs lies on the grid |
| Lagoon.TraceInGrid | D18/d18p1.py:56-63 | every edge lies on the grid, so no write in `dig` is out of range |
| Lagoon.EdgesInGrid | D18/d18p1.py:56-66 | every edge `dig` returns lies on the grid |
| Lagoon.Rows | D18/d18p1.py:50 | the array's rows all have the grid's width |
| Lagoon.DigInstruction | D18/d18p1.py:56-63 | the inner loop appends the instruction's cells to the edges and marks each `#` |
| Lagoon.Dig | D18/d18p1.py:24-66 | `dig` returns a fresh grid of the box's size with the shifted walk as its edges, `#` on every edge and `.` elsewhere |
| Lagoon.CrossingsAtMost | D18/d18p1.py:89-93 | the ray crosses at most one edge per cell it passes |
| Lagoon.NoEdgesNoCrossings | D18/d18p1.py:90 | with no edges the ray crosses nothing |
| Lagoon.IsCorner | D18/d18p1.py:96-113 | `is_corner` holds exactly when one of the two corner configurations is present |
| Lagoon.IsInsidePolygon | D18/d18p1.py:82-94 | `is_inside_polygon` says a cell is inside exactly when the diagonal ray crosses an odd number of edges that are not corners |
| Lagoon.CrossingsAfter | D18/d18p1.py:68-94 | the ray reads `.` only at cells after its start, so filling earlier cells does not change its count |
| Lagoon.RayStable | D18/d18p1.py:68-94 | the ray from an unfilled cell counts the same on the half-filled grid as on the grid `dig` left |
| Lagoon.FilledAgrees | D18/d18p1.py:73-79 | a half-filled grid agrees with the original on every `#` and on every cell not yet visited |
| Lagoon.InfillRow | D18/d18p1.py:74-79 | one row of `infill` fills each `.` cell whose ray crosses the trench an odd number of times |
| Lagoon.Infill | D18/d18p1.py:68-80 | `infill` turns a `.` cell into `+` exactly when its ray over the grid `dig` left crosses the trench an odd number of times |
| Lagoon.CountTiles | D18/d18p1.py:125-132 | `main` counts every cell that is not `.` |
| Lagoon.Filled | D18/d18p1.py:68-80 | filling keeps the grid's shape |
| Lagoon.LagoonCell | D18/d18p1.py:68-80 | a cell counts exactly when it is on the trench or its ray crosses the trench an odd number of times |
| Lagoon.PartOne | D18/d18p1.py:115-134 | part one's answer is the number of cells on or inside the trench |
| Lagoon.HexDigit | D18/d18p2.py:25 | a hexadecimal digit of either case is worth less than 16 |
| Lagoon.DirCode | D18/d18p2.py:22-26 | the digits 0 to 3 name R, D, L and U, and every other character fails |
| Lagoon.TrimStart | D18/d18p2.py:24 | `strip` removes every leading character in the set |
| Lagoon.TrimEnd | D18/d18p2.py:24 | `strip` removes every trailing character in the set |
| Lagoon.PyHex | D18/d18p2.py:25 | `int(_, 16)` succeeds exactly when, stripped of blanks, of one leading sign and of one `0x` or `0X` prefix (which one underscore may follow), the text is hex digits with single underscores between digits; a negative result comes only from a minus sign |
| Lagoon.SignedHex | D18/d18p2.py:25 | on text with no blanks at its ends, the same: a value exactly when the body after sign and prefix is grouped, negative only after a minus |
| Lagoon.HexBody | D18/d18p2.py:25 | a body has a value exactly when it is grouped, and the value is that of its digits with the underscores dropped |
| Lagoon.HexDigitsDefined | D18/d18p2.py:25 | the bare digit reader succeeds exactly on strings made only of hex digits |
| Lagoon.HexDigitsRefuse | D18/d18p2.py:25 | one character that is not a hex digit makes the bare digit reader fail |
| Lagoon.UndigitsHex | D18/d18p2.py:25 | dropping the underscores of a grouped body leaves no more characters, all of them hex digits |
| Lagoon.HexDigitsArePyHex | D18/d18p2.py:25 | wherever the bare digit reader reads a value, `int(_, 16)` reads the same value |
| Lagoon.PyHexMinus | D18/d18p2.py:25 | `int("-" + digits, 16)` is minus the digits' value, where the bare reader fails |
| Lagoon.PyHexPlus | D18/d18p2.py:25 | `int("+" + digits, 16)` is the digits' value, where the bare reader fails |
| Lagoon.PyHexGrouped | D18/d18p2.py:25 | two runs of digits joined by one underscore read as the two runs side by side, where the bare reader fails |
| Lagoon.PyHexPrefixed | D18/d18p2.py:25 | digits after `0x` or `0x_` read as the digits alone, where the bare reader fails |
| Lagoon.PyHexSignedExample | D18/d18p2.py:25 | `int("-ffff", 16)` is -65535 |
| Lagoon.PyHexGroupedExample | D18/d18p2.py:25 | `int("f_ff0", 16)` is 65520 |
| Lagoon.PyHexPrefixedExample | D18/d18p2.py:25 | `int("0x1f2", 16)` is 498 |
| Lagoon.PyHexRefuses | D18/d18p2.py:25 | `int(_, 16)` refuses `f__f`, `_f`, `f_` and a bare `0x` |
| Lagoon.PyHexBound | D18/d18p2.py:25 | what `int(_, 16)` reads from `k` characters lies strictly between `-16^k` and `16^k` |
| Lagoon.Decode | D18/d18p2.py:15-28 | the distance read from the first five characters of the colour is less than `16^5` (and not negative; see "Left out") |
| Lagoon.DecodeReads | D18/d18p2.py:20-27 | a line whose colour strips to a field with distance `amt` and direction `d` decodes to `(d, amt)` when `amt` is not negative, and is refused when it is |
| Lagoon.DecodePrefixed | D18/d18p2.py:15-28 | a colour written `(#0xhhhd)` decodes to direction `d` and the value of the three digits `hhh` |
| Lagoon.HexBound | D18/d18p2.py:25 | `k` hex digits stand for less than `16^k` |
| Lagoon.HexDigitsString | D18/d18p2.py:25 | reading back the hex digits of a number gives the number |
| Lagoon.DecodeColour | D18/d18p2.py:15-28 | decoding a line whose colour field encodes an instruction gives that instruction back, whatever the first two fields say |
| Lagoon.Vertices | D18/d18p2.py:37-44 | one vertex per instruction |
| Lagoon.AheadScaled | D18/d18p2.py:44 | an instruction moves its distance times its unit vector, as part one's steps add up |
| Lagoon.Next | D18/d18p2.py:72 | the vertex after the last one is the first |
| Lagoon.Terms | D18/d18p2.py:71-74 | one shoelace term per vertex |
| Lagoon.ShoelaceArea | D18/d18p2.py:63-76 | `get_shoelace_area` is half the absolute value of the shoelace sum |
| Lagoon.Volume | D18/d18p2.py:46-61 | by Pick's theorem the lagoon holds at least one cubic metre |
| Lagoon.DigArea | D18/d18p2.py:30-61 | part two's `dig` computes the shoelace area plus half the boundary plus one |
| Lagoon.RectangleVertices | D18/d18p2.py:37-44 | a rectangular plan has the rectangle's four corners as vertices |
| Lagoon.RectangleArea | D18/d18p2.py:63-76 | the shoelace sum of a rectangle is twice its area |
| Lagoon.Rectangle | D18/d18p2.py:30-61 | a `w` by `h` rectangular plan holds `(w + 1) * (h + 1)` cubic metres, counting the trench |
| Lagoon.Rotate | D18/d18p2.py:37-44 | rotating a list keeps its length |
| Lagoon.Translate | D18/d18p2.py:37-44 | moving every vertex keeps the number of vertices |
| Lagoon.CrossShift | D18/d18p2.py:73-74 | moving both points of a term changes it by amounts that cancel around the polygon |
| Lagoon.TranslatePrefix | D18/d18p2.py:71-74 | the first terms of a moved polygon are the original terms plus those amounts up to that vertex |
| Lagoon.TranslateSum | D18/d18p2.py:63-76 | moving a closed polygon leaves its shoelace sum unchanged |
| Lagoon.RotateTerms | D18/d18p2.py:71-74 | the terms of a rotated polygon are its terms, rotated |
| Lagoon.RotateSum | D18/d18p2.py:71-74 | a sum does not depend on where it starts |
| Lagoon.VertexBeforeWrap | D18/d18p2.py:37-44 | before the plan wraps round, each vertex of the rotated plan is the matching original vertex, moved back by the new start |
| Lagoon.VertexAfterWrap | D18/d18p2.py:37-44 | after it wraps round, the same holds because the plan is closed |
| Lagoon.VerticesRotate | D18/d18p2.py:37-44 | starting a closed plan at another instruction rotates its vertices and moves them so the route starts at the origin |
| Lagoon.PerimeterRotate | D18/d18p2.py:46 | starting elsewhere keeps the boundary length |
| Lagoon.AreaRotate | D18/d18p2.py:63-76 | starting elsewhere keeps the shoelace area |
| Lagoon.VolumeRotate | D18/d18p2.py:30-61 | starting a closed plan at any instruction digs the same volume |
| Bricks.OverlapIff | D22/d22p1.py:184-185 | the max-start, min-end test holds exactly when two closed intervals share a value |
| Bricks.CollideIff | D22/d22p1.py:179-185 | `check_xy_collision` is symmetric and holds exactly when some column `(x, y)` lies under both bricks |
| Bricks.Insert | D22/d22p1.py:203 | insertion adds exactly the one element |
| Bricks.InsertSorted | D22/d22p1.py:203 | inserting into a sorted list keeps it sorted |
| Bricks.SortBy | D22/d22p1.py:203 | `sorted` returns a permutation of its input |
| Bricks.SortBySorted | D22/d22p1.py:203 | and its result is ordered by the key |
| Bricks.Ids | D22/d22p1.py:170-175 | the bricks are numbered by input line, in dictionary order |
| Bricks.OrderSpec | D22/d22p1.py:203-205 | the bricks are dropped lowest end first, each exactly once |
| Bricks.BelowIds | D22/d22p1.py:193-194 | the filter keeps exactly the bricks whose lower end is below `z` |
| Bricks.FirstColliding | D22/d22p1.py:216-224 | the scan stops at a brick below that collides, and finds none only when no brick below collides |
| Bricks.FirstCollidingIsHighest | D22/d22p1.py:195 | because the list is in descending order of upper end, the first colliding brick is the highest one that collides |
| Bricks.BelowSortedHolds | D22/d22p1.py:187-195 | `get_bricks_below_z` holds exactly the bricks whose lower end is below `z` |
| Bricks.LandingSpec | D22/d22p1.py:212-224 | a brick lands one above the highest upper end of the lower bricks it collides with, or at level 1 when it collides with none |
| Bricks.Lowered | D22/d22p1.py:228-230 | lowering keeps the brick's x and y ranges and its height, and puts its `z1` at the landing level |
| Bricks.DropOne | D22/d22p1.py:205-230 | one step moves only the brick being dropped, and a brick already on the ground stays put |
| Bricks.DropAll | D22/d22p1.py:205-230 | dropping keeps the number of bricks |
| Bricks.DropAllStep | D22/d22p1.py:205 | the loop drops the first brick and then the rest |
| Bricks.DropOneLands | D22/d22p1.py:228-230 | one step is the source's dictionary update of `z1` and `z2` |
| Bricks.Settle | D22/d22p1.py:197-232 | settling keeps the number of bricks |
| Bricks.SettleKeepsShape | D22/d22p1.py:197-232 | settling keeps every brick's x and y ranges and its height; only `z1` and `z2` change |
| Bricks.SupportersUpToSpec | D22/d22p1.py:247-251 | a brick's supporters are exactly the bricks whose upper end is just below it and that collide with it, each listed once |
| Bricks.SupportingUpToSpec | D22/d22p2.py:122-129 | the bricks a brick supports are exactly those it is a supporter of |
| Bricks.SupportStructureLinked | D22/d22p2.py:117-130 | the two lists are linked both ways: `a` supports `c` exactly when `c` lists `a` as a supporter |
| Bricks.SoleSupporterIff | D22/d22p1.py:268-269 | `count(brick) == 1 and len(...) == 1` holds exactly when the supporter list is `[brick]` |
| Bricks.SafeCount | D22/d22p1.py:254-277 | at most every brick is safe |
| Bricks.FallSetUnique | D22/d22p2.py:132-156 | the set of bricks that fall when one is removed is unique |
| Bricks.SafeIffNothingFalls | D22/d22p1.py:254-277 | a brick is safe in part one exactly when removing it brings down no other brick in part two |
| Bricks.DistinctSize | D22/d22p2.py:150 | a list without repeats has as many distinct elements as entries |
| Bricks.SearchZap | D22/d22p2.py:146-149 | `queue.pop(0)` and then the append to `bricks_zapped` make the popped brick's supported bricks the next ones to examine |
| Bricks.SearchDone | D22/d22p2.py:145-153 | once the queue is empty, the zapped bricks are the bricks that fall, and the counter has grown by one for each brick other than the first |
| Bricks.PendingZap | D22/d22p2.py:147-149 | zapping a brick makes the bricks it supports the ones to examine |
| Bricks.PendingStep | D22/d22p2.py:150-153 | each brick examined is by then queued or zapped, or it has a supporter not yet zapped |
| Bricks.PendingClosed | D22/d22p2.py:145 | with nothing left to examine, every brick all of whose supporters are zapped is itself zapped |
| Bricks.TracedLeast | D22/d22p2.py:145-153 | every brick the search zaps falls in any closed set that holds the removed brick, so the search finds the least such set |
| Bricks.Stack.constructor | D22/d22p1.py:159-177 | `parse_input`: the snapshot, with every support list empty |
| Bricks.Stack.SimGravity | D22/d22p1.py:197-232 | `sim_gravity` leaves the settled stack and does not touch the support lists |
| Bricks.Stack.LandingLevel | D22/d22p1.py:212-224 | the scan over the bricks below finds the landing level |
| Bricks.Stack.DropBrick | D22/d22p1.py:205-230 | one pass of `sim_gravity`'s loop: a brick on the ground stays, any other drops to its landing level keeping its height; the support lists are unchanged |
| Bricks.Stack.StoreSupportStructure | D22/d22p2.py:117-130 | `store_support_structure` appends every supporter to the lower brick's list and every supported brick to the upper brick's list |
| Bricks.Stack.LinkBelow | D22/d22p2.py:123-129 | one brick's pass appends its supporters to its own list and itself to each supporter's list, changing no other list |
| Bricks.Stack.Chain | D22/d22p2.py:143-153 | the breadth-first search from one brick zaps exactly the bricks that fall with it and counts the others |
| Bricks.Stack.ExamineSupported | D22/d22p2.py:149-153 | the inner loop queues, and counts, each supported brick that is neither zapped nor queued and whose supporters are all zapped |
| Bricks.Stack.RunDisintegrationChain | D22/d22p2.py:132-156 | `run_disintegration_chain` sums, over every brick, how many other bricks fall with it |
| Bricks.Stack.GetDisintegrateCount | D22/d22p1.py:254-277 | `get_disintegrate_count` counts the bricks that are nobody's sole supporter |
| Bricks.BuiltFromEmpty | D22/d22p2.py:117-130 | lists filled starting from empty ones are the support structure |
| Bricks.PartOne | D22/d22p1.py:307-316 | part one counts the safe bricks of the settled snapshot |
| Bricks.PartTwo | D22/d22p2.py:204-211 | part two sums, over every brick of the settled snapshot, the number of other bricks that fall with it |
| Workflows.Unbounded | D19/d19p2.py:100-103 | every range starts as `[1, 4000]` for each of `x`, `m`, `a` and `s` |
| Workflows.Comparison | D19/d19p2.py:52-54 | a comparison rule has its rating letter first, then `<` or `>`, then a number |
| Workflows.TightenedExact | D19/d19p2.py:61-74 | the narrowed range holds exactly the ratings of the old range for which the comparison fails (when rejecting) or holds (when accepting) |
| Workflows.TightenedNarrows | D19/d19p2.py:61-74 | narrowing never widens a range |
| Workflows.AsWrittenDiffers | D19/d19p2.py:68-74 | the code as written differs from the correct narrowing exactly when an accepted comparison finds its own value already at the bound it would move |
| Workflows.AsWrittenAcceptsBound | D19/d19p2.py:69-71 | accepting `x<4000` on `[1, 4000]` keeps 4000, which fails the comparison |
| Workflows.TightenedAsWritten | D19/d19p2.py:61-74 | the as-written half of the first D19 Findings row: an accepted `<v` lowers the upper end only when it is above `v`, an accepted `>v` raises the lower end only when it is below `v`; `Workflows.AsWrittenAcceptsBound` exhibits the rating it keeps |
| Workflows.Tightened | D19/d19p2.py:61-74 | the corrected half of that row, with `>=` and `<=` in the tests; `Workflows.TightenedExact` proves it keeps exactly the ratings that pass (or fail) the comparison |
| Workflows.Refined | D19/d19p2.py:45-79 | `refine_intervals` fails on a rule too short to index, on a letter that is not a rating and on a number `int()` cannot read; otherwise it narrows only the rule's own letter, an accepted comparison by the intended narrowing of the D19/d19p2.py:68-74 Findings row |
| Workflows.RefinedExact | D19/d19p2.py:45-79 | with the intended narrowing, a refined box holds exactly the parts of the old box that fail the rule (when rejecting) or pass it (when accepting) |
| Workflows.Intervals.constructor | D19/d19p2.py:100-103 | a fresh dictionary of ranges, all `[1, 4000]` |
| Workflows.Intervals.Refine | D19/d19p2.py:45-79 | the method refines the ranges in place by the intended narrowing, and fails where the source raises |
| Workflows.Intervals.RejectEarlier | D19/d19p2.py:121-122 | the loop refines each earlier rule as rejected, last first |
| Workflows.Lookup | D19/d19p2.py:106 | `rule_dict[key]` finds the named workflow, and fails exactly when there is none |
| Workflows.FirstSendingSpec | D19/d19p2.py:86-88 | the first rule of a workflow that sends to `key`, or none |
| Workflows.PriorRuleSpec | D19/d19p2.py:81-90 | the prior rule sends to `key`, no earlier rule does, and there is none exactly when no rule sends to `key` |
| Workflows.FindPriorRule | D19/d19p2.py:81-90 | `find_prior_rule` returns on the first match |
| Workflows.RejectBeforeExact | D19/d19p2.py:121-122 | after rejecting the earlier rules, the box holds exactly the parts that pass none of them |
| Workflows.SelectedExact | D19/d19p2.py:119-122 | with the intended narrowing, after selecting a rule the box holds exactly the parts that reach that rule within its workflow and pass it |
| Workflows.WalkExact | D19/d19p2.py:109-125 | with the intended narrowing, the walk back ends with exactly the parts that go from `in` to the accepting rule; the box never widens |
| Workflows.Walk | D19/d19p2.py:109-125 | the walk back from rule `id` of workflow `key` to `in`, with the intended narrowing; `None` where the source raises or past `fuel` steps; `Workflows.WalkExact` states the box it ends with |
| Workflows.GetIntervalsForRuleSet | D19/d19p2.py:92-126 | `get_intervals_for_rule_set`, with the intended narrowing, starts from fresh ranges and returns the box of the walk back |
| Workflows.SelectRule | D19/d19p2.py:119-122 | accepting rule `id` (unless it is `A` or names a workflow) by the intended narrowing and rejecting every earlier rule succeeds exactly when the specified selection does, and leaves its ranges |
| Workflows.Width | D19/d19p2.py:134 | a range has no ratings exactly when it is empty |
| Workflows.WidthCounts | D19/d19p2.py:134 | a range holds that many ratings |
| Workflows.PermutationsSpec | D19/d19p2.py:128-135 | the corrected count multiplies the widths, is never negative, is zero exactly when some range is empty, and is at most 4000^4 |
| Workflows.AsWrittenCountsEmptyNegative | D19/d19p2.py:133-134 | the empty range `x in [10, 4]` counts negatively as written and as nothing when corrected |
| Workflows.PermutationsAsWritten | D19/d19p2.py:128-135 | the as-written half of the second D19 Findings row: the product of `upper - lower + 1` over the four letters; `Workflows.AsWrittenCountsEmptyNegative` exhibits a negative count |
| Workflows.Permutations | D19/d19p2.py:128-135 | the corrected half of that row, an empty range counting zero; `Workflows.PermutationsSpec` proves it is the number of parts in the box |
| Workflows.ShadowedRuleBox | D19/d19p2.py:92-126 | walking back from an accepting rule that no part can reach leaves that empty range |
| Workflows.CountPermutations | D19/d19p2.py:128-135 | the loop computes the intended count of the D19/d19p2.py:128-135 Findings row, the product of the range widths with an empty range counting zero |
| Workflows.AcceptingIn | D19/d19p2.py:153-155 | every rule collected mentions `A` |
| Workflows.IntervalsForWithin | D19/d19p2.py:92-126 | every box walked has the four letters and lies within `[1, 4000]` |
| Workflows.BoxesForWithin | D19/d19p2.py:159-160 | one box per accepting rule, each within `[1, 4000]` |
| Workflows.SumCountsBounds | D19/d19p2.py:166-168 | with the intended count, the sum is never negative and each box adds at most 4000^4 |
| Workflows.TotalBounds | D19/d19p2.py:137-170 | with the intended count, the total is never negative, and each accepting rule adds at most 4000^4 |
| Workflows.FindAcceptedCombinations | D19/d19p2.py:137-170 | `find_accepted_combinations` collects the accepting rules, walks back from each one and sums the counts, with the intended narrowing and count |
| Workflows.CollectAcceptances | D19/d19p2.py:152-155 | the scan collects the accepting rules in dictionary order |
| Workflows.AcceptingRules | D19/d19p2.py:153-155 | one workflow's pass of that scan |
| Workflows.GatherIntervals | D19/d19p2.py:158-160 | one walk per accepting rule, with the intended narrowing |
| Workflows.BoxesForNone | D19/d19p2.py:158-160 | when one walk fails, the whole collection fails |
| Contraption.NextSpec | D16/d16p2.py:50-96 | every beam that replaces a beam stands one tile from it in its own new heading; the heading is kept exactly on `.` and on the pointy side of a splitter; a beam splits in two exactly on the flat side of a splitter, into the two perpendicular headings; the mirrors turn it as the puzzle's table says |
| Contraption.Next | D16/d16p2.py:50-96 | the beams that replace a beam on each kind of tile; `Contraption.NextSpec` states their positions and headings |
| Contraption.EnergyUnique | D16/d16p2.py:21-99 | there is one least region of beam states, so one energy per start beam |
| Contraption.Energy | D16/d16p2.py:21-99 | the energy of a start beam: the number of tiles of the least region of beam states closed under `Next`; `Contraption.EnergyUnique` shows there is one |
| Contraption.AllBeams | D16/d16p2.py:28 | the cache can only hold the finitely many beam states of the grid |
| Contraption.Delete | D16/d16p2.py:39 | `del beams[i]` removes exactly that one beam |
| Contraption.Fewer | D16/d16p2.py:48 | caching a new beam of the grid leaves fewer states unseen |
| Contraption.Visit | D16/d16p2.py:33-96 | one turn of the `for` loop: an out-of-grid or cached beam leaves the list; any other is cached, energizes its tile and is replaced by its successors, and the loop's invariant holds afterwards |
| Contraption.Rewire | D16/d16p2.py:60-96 | the list after a beam is handled: replaced in place when it has one successor, both appended and itself deleted when it splits; nothing else is lost |
| Contraption.RewireKeeps | D16/d16p2.py:43-96 | handling a new beam keeps the loop's invariant |
| Contraption.Settled | D16/d16p2.py:30-32 | once no beam is left, the cache is the least closed region and the energized tiles are its tiles |
| Contraption.EnergyValue | D16/d16p2.py:21-99 | `get_energy_value` (and part one's loop from `(0, 0, 'E')`) counts the tiles of the least closed region from the start beam, handling each beam state once |
| Contraption.Sweep | D16/d16p2.py:33-96 | each pass of the `for` loop over the shrinking and growing list keeps the invariant and makes progress: fewer states unseen, or as many and fewer live beams |
| Contraption.ColumnEntriesSpec | D16/d16p2.py:112-114 | the beams of the intended first loop (the D16/d16p2.py:114 Findings row) enter the top row heading south, or the bottom row heading north |
| Contraption.RowEntriesSpec | D16/d16p2.py:116-118 | the beams of the second loop enter the left column heading east, or the right column heading west |
| Contraption.EntriesSpec | D16/d16p2.py:110-118 | the entry beams are exactly the beams entering from an edge |
| Contraption.BottomEntryMissed | D16/d16p2.py:114 | on a two-by-two contraption the code as written never tries the beam entering the bottom-left tile heading north |
| Contraption.EntriesAsWritten | D16/d16p2.py:110-118 | the as-written half of the D16 Findings row: the entry list with `(0, len(data) - 1, 'N')` for every column; `Contraption.BottomEntryMissed` exhibits the missing beam |
| Contraption.Entries | D16/d16p2.py:110-118 | the corrected half of the D16 Findings row: one beam into every edge tile; `Contraption.EntriesSpec` proves they are exactly the edge entries |
| Contraption.EntryBeams | D16/d16p2.py:110-118 | the two loops, the first as intended, build exactly the edge entry beams |
| Contraption.MostEnergy | D16/d16p2.py:101-126 | part two finds the highest energy over the intended entry beams and the first entry beam that reaches it (`(0, 0, 'E')` while nothing beats 0) |
| Crucible.Candidate | D17/d17p1.py:119-135 | a move keeps the heading it was built with |
| Crucible.Ray | D17/d17p1.py:126-128 | one more block on a move keeps its heading |
| Crucible.CandidateSpec | D17/d17p1.py:119-135 | a move of `i` steps ends `i` blocks along its vector and loses the heat of every block it enters |
| Crucible.MovesSpec | D17/d17p1.py:95-137 | the possible moves go between the minimum and the maximum number of blocks in a straight line to a block of the grid, turning left or right (straight on instead of left at the origin), and lose the heat of the blocks they enter |
| Crucible.MovesTurn | D17/d17p1.py:107-116 | away from the origin a move turns left or right, never straight on or back; at the origin it goes straight on or right |
| Crucible.GetPossibleMoves | D17/d17p1.py:95-137 | `get_possible_moves` returns those moves, in the source's order |
| Crucible.TryMove | D17/d17p1.py:119-135 | one turn of that loop for one heading keeps the move exactly when its end is in the grid |
| Crucible.SumRay | D17/d17p1.py:126-128 | the generator sums the heat of the blocks the move enters |
| Crucible.RouteSnoc | D17/d17p1.py:158-168 | a possible move extends a route, and adds its heat to the route's cost |
| Crucible.PopIndex | D17/d17p1.py:155 | `heappop` takes a least entry of the queue |
| Crucible.RelaxedLowered | D17/d17p1.py:164-166 | lowering entries keeps a relaxed state relaxed when its own entry stays |
| Crucible.RelaxOne | D17/d17p1.py:159-168 | when a move improves on the table, the new heat loss is recorded and pushed; each table entry stays the cost of some route |
| Crucible.RelaxMoves | D17/d17p1.py:158-168 | the inner loop relaxes every move from the popped entry, only lowering the table and pushing each improvement |
| Crucible.Compose | D17/d17p1.py:158-168 | two rounds of lowering and pushing make one |
| Crucible.KeepReached | D17/d17p1.py:158-168 | lowering the table keeps the moves relaxed so far relaxed |
| Crucible.ClosedBounds | D17/d17p1.py:154-168 | once the queue is empty the table is closed under moves, so it bounds the cost of every route from below |
| Crucible.Better | D17/d17p1.py:171 | `min` of an entry and the best so far |
| Crucible.BestAt | D17/d17p1.py:171 | `min(min_heat_loss[-1][-1])` is the least heat loss recorded at the goal over the four headings, and infinite only when none is |
| Crucible.Dijkstra | D17/d17p1.py:139-171 | `dijkstra`, when it finishes, returns the least heat loss over every route from the top-left block to the bottom-right block, or infinity when no route reaches it |
| Crucible.PendingAfter | D17/d17p1.py:154-168 | one turn of the loop keeps every table entry either pending in the queue or relaxed |
| Crucible.PartOne | D17/d17p1.py:198-204 | part one answers with moves of one to three blocks |
| Crucible.PartTwo | D17/d17p2.py:172-178 | part two answers with moves of four to ten blocks |
| StepCounter.StartFrom | D21/d21p1.py:118-122 | the start is the first `S` of the first row that holds one, and there is none only when no row holds an `S` |
| StepCounter.FirstIndex | D21/d21p1.py:121 | `line.index('S')` is the first `S` of the line |
| StepCounter.FindStart | D21/d21p1.py:116-122 | the loop finds that start |
| StepCounter.IterateWalks | D21/d21p1.py:129-150 | after `k` steps the elf can stand exactly where some walk of `k` steps from the start ends |
| StepCounter.WalkTo | D21/d21p1.py:129-150 | each position reached after `k` steps ends a walk of `k` steps |
| StepCounter.WalkEnds | D21/d21p1.py:129-150 | each walk from the start ends where the elf can stand after that many steps |
| StepCounter.WalkSnoc | D21/d21p1.py:134-140 | a walk extended by one valid step is a walk |
| StepCounter.WalkPrefix | D21/d21p1.py:134-140 | every prefix of a walk is a walk |
| StepCounter.StuckStays | D21/d21p1.py:147-148 | once no position is left, none comes back, so stopping early changes nothing |
| StepCounter.StepAdd | D21/d21p1.py:134-140 | one more current position adds its valid neighbours to the next step |
| StepCounter.NextPositions | D21/d21p1.py:133-142 | the loop collects every valid neighbour of every current position, without repeats |
| StepCounter.IsValidPosition | D21/d21p1.py:154-165 | `is_valid_position` holds exactly for an in-bounds tile that is not a rock |
| StepCounter.FindSteps | D21/d21p1.py:110-152 | part one's `find_steps` fails exactly when there is no start, and otherwise counts the plots reachable in exactly the step limit (64) |
| StepCounter.WrapSpec | D21/d21p2.py:94-113 | stepping from a cell inside the map stays inside the map, lands one step away on the infinite map, and keeps the tile offset in step |
| StepCounter.AbsInjective | D21/d21p2.py:145-149 | two plots with their cells inside the map are the same place on the infinite map only when they are equal, so the same cell on two tiles counts twice |
| StepCounter.SameTile | D21/d21p2.py:145-149 | a position on the infinite map has one tile and one cell |
| StepCounter.UpdateSubPosition | D21/d21p2.py:88-116 | `update_sub_position` keeps each of the four steps whose plot is not a rock |
| StepCounter.SubMovesSpec | D21/d21p2.py:88-116 | each plot it gives is one step away on the infinite map, inside the map and not a rock, and each such step is there |
| StepCounter.UpdatePositionSpec | D21/d21p2.py:118-128 | stepping from the stripped position and adding back the tile offset is stepping from the position itself |
| StepCounter.UnboundedInTile | D21/d21p2.py:155-163 | starting inside the map, every plot reached keeps its cell inside the map |
| StepCounter.SpreadAdd | D21/d21p2.py:160-161 | one more current position adds its steps to the next set |
| StepCounter.NextPlots | D21/d21p2.py:159-161 | the loop collects every step of every current position |
| StepCounter.UpdatePositionOf | D21/d21p2.py:118-128 | `update_position` with its list comprehension |
| StepCounter.FindStepsUnbounded | D21/d21p2.py:131-187 | part two's `find_steps` fails exactly when there is no start, and otherwise counts the plots of the infinite map reachable in exactly the step limit (1000) |
| LongWalk.Tiles | D23/d23p1.py:111-146 | a recorded path starts at the start and ends where the hike is |
| LongWalk.Extend | D23/d23p1.py:131-146 | one more move onto a tile not yet visited keeps a hike a hike |
| LongWalk.Branches | D23/d23p1.py:125-146 | the loop over the four neighbours keeps every branch on the stack a hike |
| LongWalk.TryStep | D23/d23p1.py:127-146 | the checks on one neighbour, in the source's order, only grow the visited set and push a hike |
| LongWalk.SlideOn | D23/d23p1.py:134-143 | a step onto a slope slides on to the tile it points at, unless that tile has been visited |
| LongWalk.WalkMaze | D23/d23p1.py:105-152 | `walk_maze` returns -1 when no path reaches the end, and otherwise the length of a real hike from the start to the end |
| LongWalk.Flatten | D23/d23p2.py:61-65 | every slope of a row becomes `.` and nothing else changes |
| LongWalk.FlattenSpec | D23/d23p2.py:61-65 | after flattening no slope is left, forest stays forest, and flattening twice is flattening once |
| LongWalk.FlattenSlopes | D23/d23p2.py:52-67 | part two's `parse_input` flattens every row |
| LongWalk.FlattenOpen | D23/d23p2.py:52-67 | flattening keeps the map's shape and where its forest is |
| LongWalk.CountOpen | D23/d23p2.py:109-111 | at most every neighbour is open |
| LongWalk.FindNodes | D23/d23p2.py:102-113 | the scan finds exactly the nodes (start, end and every tile with other than two open neighbours), in reading order |
| LongWalk.ScanRow | D23/d23p2.py:105-113 | one row of the scan adds that row's nodes, in order |
| LongWalk.OpenNeighbours | D23/d23p2.py:108-111 | the count is the number of open neighbours |
| LongWalk.NodeEdges | D23/d23p2.py:119-132 | the search from one node records, for every other node it reaches along a hallway, a real hallway of that many steps |
| LongWalk.AddEdge | D23/d23p2.py:126-128 | a node reached along a hallway, not reached before, makes a new edge |
| LongWalk.PushOpen | D23/d23p2.py:129-132 | every open neighbour goes on the stack one step further on |
| LongWalk.Lengthen | D23/d23p2.py:129-132 | a hallway may go on past a tile that is not a node |
| LongWalk.ConvertToGraph | D23/d23p2.py:91-134 | `convert_to_graph` has exactly the nodes as keys, each with edges that are real hallways |
| LongWalk.StackedPop | D23/d23p2.py:148-149 | the entry on top of the stack is not on its own path |
| LongWalk.TrackLeg | D23/d23p2.py:160-162 | a trip that passes no node twice goes on along an edge to a node it has not passed |
| LongWalk.PushNeighbours | D23/d23p2.py:157-162 | the entry's node joins its path and visited set, and an entry goes on the stack for every edge to a node not yet on the path |
| LongWalk.FrontierStep | D23/d23p2.py:148-162 | one turn of the loop keeps the frontier: every trip to the end is covered by the best cost so far or has a prefix still on the stack |
| LongWalk.FrontierOne | D23/d23p2.py:148-162 | a trip through the popped entry has a prefix still on the stack |
| LongWalk.DfsGraph | D23/d23p2.py:136-164 | `dfs_graph` returns the cost of the longest trip from the start to `(140, 139)` that visits no node twice, or 0 when none exists; it fails when the start is not a node |
| LongWalk.LongestHike | D23/d23p2.py:174-182 | part two flattens the slopes, builds the graph of the flattened map and finds its longest trip |
| Wasteland.TraverseFrom | D08/d8p1.py:90-92 | from the node reached after `k` steps, the loop answers `n` exactly when `n` is within the fuel, the walk is at the goal at `n`, and it is not at the goal before |
| Wasteland.Traverse | D08/d8p1.py:82-94 | `traverse_map`'s loop from the node reached after `k` steps, `None` for the source's errors or past `fuel` steps; `Wasteland.TraverseIsFirstArrival` states it finds the first arrival |
| Wasteland.TraverseIsFirstArrival | D08/d8p1.py:82-94 | `traverse_map` returns the first step count at which the walk reaches the goal, and finds it whenever that count is within the fuel |
| Wasteland.NodeAtNext | D08/d8p1.py:91 | each step replaces the node with its successor for the instruction `steps[k % len(steps)]` |
| Wasteland.TraverseMap | D08/d8p1.py:82-94 | part one walks from `AAA` to `ZZZ` |
| Wasteland.Walk | D08/d8p2.py:103-107 | the `while` loop shared by both parts |
| Wasteland.Starts | D08/d8p2.py:95 | the start nodes are exactly the nodes whose name ends in `A` |
| Wasteland.CycleLengthsSpec | D08/d8p2.py:100-109 | there is one count per start; each is that start's first arrival at a node ending in `Z`, and each is at least one |
| Wasteland.AllArriveIsLeast | D08/d8p2.py:89-113 | part two's answer is a positive common multiple of every start's count, and it divides every other common multiple |
| Wasteland.TraverseAll | D08/d8p2.py:89-113 | part two's `traverse_map` finds each start's count and takes their least common multiple |
| Wasteland.CyclesFail | D08/d8p2.py:100-109 | when one walk fails, the whole list of counts fails |
| Wasteland.SampleOneTakesTwo | D08/d8p1.py:48 | the first sample takes 2 steps |
| EngineSchematic.RunsSound | D3P1/main.py:64-66 | every match of `\d+` is a maximal run of digits, and the matches come in column order |
| EngineSchematic.RunsComplete | D3P1/main.py:64-66 | every digit lies in one of the matches |
| EngineSchematic.CandidatesAreRuns | D3P1/main.py:54-68 | every candidate is a maximal run of digits in its own row |
| EngineSchematic.FindCandidatePartNumbers | D3P1/main.py:54-68 | `find_candidate_part_numbers` (and part two's `find_part_numbers`) lists the digit runs of every row, in reading order |
| EngineSchematic.Scan | D3P1/main.py:85-89 | the window is clipped to the grid; on a rectangular grid it holds exactly the cells touching the part, diagonals included |
| EngineSchematic.ValidIffTouching | D3P1/main.py:79-99 | on a rectangular grid a part is valid exactly when a symbol (anything but `.` or a digit) touches one of its digits |
| EngineSchematic.ValidatePart | D3P1/main.py:79-99 | `validate_part` scans the window row by row and stops at the first symbol |
| EngineSchematic.SumOfValidPartNumbers | D3P1/main.py:101-110 | part one adds up the numbers of the valid candidates |
| EngineSchematic.RowStarsSpec | D3/d3p2.py:77-79 | one row's gears are exactly its `*` cells, left to right |
| EngineSchematic.StarsSpec | D3/d3p2.py:69-81 | the candidate gears are exactly the `*` cells, in reading order |
| EngineSchematic.FindCandidateGears | D3/d3p2.py:69-81 | `find_candidate_gears` lists every `*` |
| EngineSchematic.AdjacentOverlap | D3/d3p2.py:96-107 | the two column tests together hold exactly when the part's columns overlap the window's |
| EngineSchematic.GearTouches | D3/d3p2.py:88-107 | a part is adjacent to a gear exactly when one of its digits touches the gear, diagonals included |
| EngineSchematic.AdjacentParts | D3/d3p2.py:96-107 | the collected parts are parts adjacent to the gear, in order |
| EngineSchematic.AdjacentPartsComplete | D3/d3p2.py:96-107 | every adjacent part is collected |
| EngineSchematic.GetGearRatio | D3/d3p2.py:83-116 | `get_gear_ratio` is the product of the two adjacent parts when there are exactly two, and 0 otherwise |
| EngineSchematic.SumOfGearRatios | D3/d3p2.py:118-126 | part two adds up the ratios of every `*` cell |
| Scratchcards.MatchesRange | D4/d4p2.py:85-90 | a card's score is at most the count of your numbers; it equals that count exactly when all of them win, and it is zero exactly when none does |
| Scratchcards.GetCardScore | D4P2/main.py:55-64 | the counting loop computes the score |
| Scratchcards.CopiesBound | D4/d4p2.py:104-110 | card `j` never has more than `2^j` instances |
| Scratchcards.WonBound | D4/d4p2.py:104-110 | the earlier cards win card `j` at most `2^k - 1` times |
| Scratchcards.AddingStep | D4/d4p2.py:109-110 | one more card won: card `id`'s count is added to card `id + i + 1` |
| Scratchcards.AddingDone | D4/d4p2.py:104-110 | once card `id` has added its count to the next cards, every card up to it is done |
| Scratchcards.AddCopies | D4/d4p2.py:109-110 | the inner loop adds the count to each of the next `score` cards, and fails exactly when a card would win past the end of the table (the `KeyError`) |
| Scratchcards.CountCards | D4/d4p2.py:101-110 | the propagation loop gives every card its number of instances, and fails exactly when some card wins past the end of the table |
| Scratchcards.TotalScratchcards | D4/d4p2.py:92-113 | the answer is the total number of instances, and fails exactly when some card wins past the end of the table |
| Scratchcards.AllCopiesAt | D4/d4p2.py:113 | the counts line up with the cards |
| Scratchcards.CardScore0 | D4/d4p2.py:26 | card 1 of the example has four winning numbers |
| Scratchcards.CardScore1 | D4/d4p2.py:27 | card 2 has two |
| Scratchcards.CardScore2 | D4/d4p2.py:28 | card 3 has two |
| Scratchcards.CardScore3 | D4/d4p2.py:29 | card 4 has one |
| Scratchcards.CardScore4 | D4/d4p2.py:30 | card 5 has none |
| Scratchcards.CardScore5 | D4/d4p2.py:31 | card 6 has none |
| Scratchcards.SampleScores | D4/d4p2.py:26-31 | the example's scores are 4, 2, 2, 1, 0 and 0 |
| Scratchcards.SampleCopies | D4/d4p2.py:33-48 | six cards scoring 4, 2, 2, 1, 0 and 0 end with 1, 2, 4, 8, 14 and 1 instances |
| Scratchcards.SampleTotal | D4/d4p2.py:48 | the example totals 30 scratchcards |
| CubeGame.Put | D2P1/main.py:66-67 | `reveal[colour] = n` changes only that colour |
| CubeGame.Find | D2P1/main.py:56 | the first occurrence of the separator at or after an index |
| CubeGame.SplitOn | D2P1/main.py:56 | `split` returns at least one piece |
| CubeGame.JoinSplitOn | D2P1/main.py:56 | joining the pieces of a split with the separator gives back the line |
| CubeGame.SplitOnPieces | D2P1/main.py:56 | no piece but the last holds the separator |
| CubeGame.ColourAt | D2P1/main.py:64 | a colour word follows a space |
| CubeGame.FindallSound | D2P1/main.py:64 | every match stands for `<digits> <colour>` in the reveal, found left to right |
| CubeGame.TallyLast | D2P1/main.py:64-67 | a colour's count is that of its last match, or 0 when no match names the colour |
| CubeGame.ParseReveal | D2P1/main.py:61-67 | a reveal starts at all zeros and takes each matched count |
| CubeGame.GameParser | D2P1/main.py:44-70 | `game_parser` gives one game per line, each the reveals of its line |
| CubeGame.IsPossible | D2P1/main.py:79-84 | a game stops being possible at its first reveal that shows more cubes of a colour than the bag (12 red, 13 green, 14 blue) |
| CubeGame.SumPossibleGameIds | D2P1/main.py:73-88 | part one adds up the numbers of the possible games |
| CubeGame.PossibleIdsBound | D2P1/main.py:73-88 | the possible games' numbers add up to at most `n(n + 1)/2`, with equality when every game is possible |
| CubeGame.MinimumIsLeast | D02/d2p2.py:68-79 | the fewest cubes of each colour make the smallest bag that allows the game: it covers every reveal, and every bag that covers every reveal covers it |
| CubeGame.MinimumShown | D02/d2p2.py:74-77 | each count of the smallest bag is 0 or is shown by some reveal |
| CubeGame.PossibleIffMinimumFits | D2P1/main.py:79-84 | parts one and two agree: a game is possible exactly when its smallest bag fits in part one's bag |
| CubeGame.GamePower | D02/d2p2.py:68-79 | `game_power` keeps the largest count of each colour seen, then multiplies them |
| CubeGame.MinimumZero | D02/d2p2.py:72-77 | the fewest cubes of a colour are 0 exactly when no reveal shows that colour |
| CubeGame.PowerZero | D02/d2p2.py:79 | the power is 0 exactly when some colour is never revealed |
| CubeGame.SumOfGamePowers | D02/d2p2.py:83-89 | part two adds up the games' powers |
| CubeGame.SamplePossible | D2P1/main.py:23-27 | on the example games 1, 2 and 5 are possible, for 8 |
| CubeGame.SampleMinimum0 | D02/d2p2.py:13 | game 1 needs 4 red, 2 green and 6 blue cubes |
| CubeGame.SampleMinimum1 | D02/d2p2.py:14 | game 2 needs 1 red, 3 green and 4 blue |
| CubeGame.SampleMinimum2 | D02/d2p2.py:15 | game 3 needs 20 red, 13 green and 6 blue |
| CubeGame.SampleMinimum3 | D02/d2p2.py:16 | game 4 needs 14 red, 3 green and 15 blue |
| CubeGame.SampleMinimum4 | D02/d2p2.py:17 | game 5 needs 6 red, 3 green and 2 blue |
| CubeGame.SamplePowers | D02/d2p2.py:18-22 | the powers 48, 12, 1560, 630 and 36 add up to 2286 |
| CubeGame.SampleReveal | D2P1/main.py:49-67 | the reveal `3 blue, 4 red` is 4 red, no green and 3 blue |
| Calibration.NamesPrefixFree | D01/d1p2.py:51 | no digit name is a prefix of another |
| Calibration.NameIndex | D01/d1p2.py:51 | the first two letters tell which name a text can start with |
| Calibration.FirstName | D01/d1p2.py:51 | the alternation tries the names in order and takes the first that matches |
| Calibration.FirstNameIs | D01/d1p2.py:51 | the first two letters pick the only name that can match |
| Calibration.NamePrefixIndex | D01/d1p2.py:51 | a text that starts with a name has that name's index |
| Calibration.WordToNum | D01/d1p2.py:25-29 | `word_to_num` gives the digit a word spells, ignoring case, and `None` when it spells none |
| Calibration.WordToNumSpelled | D01/d1p2.py:25-29 | a word spells `d` exactly when, in lower case, it is the name of `d` |
| Calibration.ConvertToString | D01/d1p2.py:32-36 | `convert_to_string` keeps a numeral as it is, turns a word into the numeral of the digit it spells, and gives `"None"` when it spells none |
| Calibration.ConvertName | D01/d1p2.py:32-36 | the name of `d` becomes the numeral of `d` |
| Calibration.MatchAtSpelled | D01/d1p2.py:51 | the lookahead captures something at a position exactly when a digit is written there, as a numeral or a name, and the capture converts to that digit |
| Calibration.NameSpelled | D01/d1p2.py:51 | where a name starts, the only digit written is the one it names |
| Calibration.NumeralSpelled | D01/d1p2.py:51 | where no name starts, the capture is the numeral, if there is one |
| Calibration.FindallCaptured | D01/d1p2.py:51 | every capture is a numeral or a name |
| Calibration.ConvertCaptured | D01/d1p2.py:54-58 | a capture converts to a single numeral |
| Calibration.FindallEmpty | D01/d1p2.py:51-53 | there are no captures exactly when no position has one |
| Calibration.FindallFirst | D01/d1p2.py:54 | the first capture is the one at the first position that has one |
| Calibration.FindallLast | D01/d1p2.py:55 | the last capture is the one at the last position that has one |
| Calibration.LineValueFirstLast | D01/d1p2.py:49-59 | a line's value is ten times the first digit written in it plus the last one, numerals and names alike |
| Calibration.CaptureSpelled | D01/d1p2.py:51 | a position with a capture has a digit written at it |
| Calibration.LineValueNone | D01/d1p2.py:53 | a line with no digit written in it adds nothing |
| Calibration.SumCalibrationValues | D01/d1p2.py:46-59 | the main loop adds up each line's first and last digits, skipping lines with no capture |
| Calibration.EightTwo | D01/d1p2.py:51 | captures overlap: in `eightwo` both `eight` and `two` are found |
| Calibration.NameCapture | D01/d1p2.py:51 | a name at a position is what the pattern captures there |
| Calibration.NoCapture | D01/d1p2.py:51 | without a numeral or the start of a name, nothing is captured at a position |
| Lenses.Hash | D15/d15p2.py:130-140 | the HASH is below 256, starts at 0, and each character adds its code, multiplies by 17 and keeps the remainder modulo 256; `HASH` hashes to 52 |
| Rocks.Roll | D14/d14p1.py:118-140 | rolling a row keeps its length |
| Rocks.RollAt | D14/d14p1.py:126-137 | one column of the scan keeps the row's length |
| Text.Before | D5P1/main.py:161 | the part before the first separator is a prefix without the separator, followed by the separator when there is one |
| Text.After | D5P1/main.py:161 | a string is the part before the first separator, the separator and the part after it |
| Text.Split | D5P1/main.py:161 | `split(sep)` returns at least one piece, and no piece holds the separator |
| Text.JoinSplit | D5P1/main.py:161 | joining the pieces of a split with the separator gives back the string |
| Text.SplitJoin | D5P1/main.py:161 | splitting what was joined gives back the pieces, when none holds the separator |
| Text.Word | D5P1/main.py:171 | the first word is the longest prefix without blanks |
| Text.Words | D4/d4p2.py:80-81 | `split()` returns the non-empty runs without blanks |
| Text.WordsOfJoin | D4/d4p2.py:80-81 | joining words with single spaces and splitting again gives back the words |
| Text.Decimal | D5P1/main.py:190-192 | reads a non-empty string of ASCII digits, the part of `int()` the parsers rely on; wherever it succeeds `int()` gives the same number |
| Text.Strip | D5P1/main.py:190-192 | the blanks `int()` ignores around a number: the stripped string is no longer, starts and ends with a non-blank, and is empty only when every character is blank |
| Text.Undigits | D5P1/main.py:190-192 | dropping the underscores leaves no underscore, and only digits when only digits and underscores were there |
| Text.PyInt | D5P1/main.py:190-192 | `int()` on a string succeeds exactly when, stripped of blanks and of one leading sign, it is a run of digits with single underscores between digits (the value, the signed number of the digits, is pinned down by `Text.DecimalIsPyInt` and the examples below) |
| Text.DecimalIsPyInt | D5P1/main.py:190-192 | wherever `Decimal` reads a number, `int()` reads the same number |
| Text.PyIntSigned | D5P1/main.py:190-192 | `int("-3")` is -3, which `Decimal` refuses |
| Text.PyIntPadded | D5P1/main.py:190-192 | `int(" 7 ")` is 7, which `Decimal` refuses |
| Text.PyIntGrouped | D5P1/main.py:190-192 | `int("1_0")` is 10, which `Decimal` refuses |
| Text.PyIntRefusesLooseUnderscores | D5P1/main.py:190-192 | `int()` refuses `1__0`, `_1` and `1_` |
| Text.DecimalShow | D07/d7p1.py:206 | reading back the decimal digits of a number gives the number |
| Text.Show | D07/d7p1.py:206 | the decimal digits of a number form a non-empty string of digits |
| Text.RunEnd | D3P1/main.py:64 | the end of a run of digits: every character before it is a digit, and the one at it is not |
| Arith.Gcd | D08/d8p2.py:113 | the gcd divides both arguments, and is positive unless both are 0 |
| Arith.GcdIsGreatest | D08/d8p2.py:113 | every common divisor divides the gcd |
| Arith.Bezout | D08/d8p2.py:113 | the gcd is an integer combination of the arguments |
| Arith.LcmIsCommonMultiple | D08/d8p2.py:113 | for positive arguments `math.lcm` is a positive common multiple |
| Arith.LcmDividesCommonMultiple | D08/d8p2.py:113 | and it divides every positive common multiple, so it is the least one |
| Arith.LcmOfIsLeast | D20/d20p2.py:145 | `math.lcm(*xs)` of positive numbers is a positive common multiple of all of them that divides every positive common multiple |
| Pulses.MinIndex | D20/d20p1.py:261 | the pulse `heappop` takes is queued and has no queued pulse below it |
| Galaxies.RowFlags | D11/d11p1.py:140-145 | one flag per row |
| Galaxies.ColFlags | D11/d11p1.py:151-154 | one flag per column |
| Galaxies.Shifted | D11/d11p1.py:135-171 | shifting keeps the number of galaxies |
| Grids.Turn | D14/d14p1.py:103 | `[list(reversed(i)) for i in zip(*rock_map)]` is a clockwise quarter turn: row `i` of the result is column `i` read from the bottom up |
| Grids.TurnW | D13/d13p1.py:126 | the first `w` columns, each read from the bottom up |
| Seqs.Reverse | D13/d13p1.py:148 | `[::-1]` reverses a list |
| Seqs.Count | D22/d22p1.py:268 | `list.count(x)` is at most the length, and 0 exactly when `x` is absent |
| Oasis.CubicRows | D09/d9p1.py:91-96 | the differences of the third sample history are `3 3 5 9 15` |
| Mirrors.SampleAHasNoRowLine | D13/d13p1.py:85 | the first sample pattern has no horizontal line of reflection |
| Mirrors.SampleAColumnLine | D13/d13p1.py:85 | its first vertical line has five columns to its left |
| Mirrors.SampleBRowLine | D13/d13p1.py:85 | the second sample pattern's first horizontal line has four rows above it |

## Left out

- Reading the puzzle input from files (`open`, `sys.argv`) is not modelled.
- Only some parsers are modelled, each from the lines it reads: D2 (`CubeGame.GameParser`), D5 (`Almanac.Parse`), D15 (`Lenses.ParseInstructions`), D18 part two (`Lagoon.Decode`), D20 (`PulseNetwork.Parse`, `PulseWatch.Parse`), D23 part two (`LongWalk.FlattenSlopes`) and D12 part two's unfolding (`Springs.Unfold`). D1 and the grid days work on the input's lines as they stand; D7 reads each bid, and D19 each rule, from its text.
- Every other day starts from values already parsed, and its parser is left out:
  - D4's `card_parser` (D4/d4p2.py:59, D4P2/main.py:39);
  - D8's `parse_map` (D08/d8p1.py:53, D08/d8p2.py:58);
  - D9's `parse_sequences` (D09/d9p1.py:101);
  - D11's `parse_input` (D11/d11p1.py:119);
  - D13's `parse_input` (D13/d13p1.py:93);
  - the `int()` of D12 part one's group sizes and of D18 part one's distances;
  - D22's coordinates: `Bricks.Stack.constructor` takes the snapshot already read.
- Output is left out: `print`, `icecream` (`ic`), `tqdm` progress bars, `time` measurements and the `output.log` writes of D21/d21p2.py.
- Visualisation and debugging helpers are left out. They produce no answer:
  - `plot_bricks` (D22);
  - the graphviz export `visualize_modules` (D20/d20p2.py);
  - `animate_maze` (D23);
  - `debug_drive`, which reads the keyboard (D17);
  - the unused `flood_fill` (D10/d10p2.py).
- D24 (both parts) is left out: floating-point intersections, and a call into the `sympy` solver.
- D25 is left out: the `networkx` minimum cut and `matplotlib` drawing are foreign libraries.
- D5P2 is left out: it is built on the external `intervaltree` library.
- D6P2 is left out: it relies on a floating-point square root with `ceil`/`floor`.
- The day template `Template/dxp1.py` holds no logic and is left out.
- Floating point is not modelled:
  - true divisions (D10 `steps_taken / 2`, the D18 shoelace area) are exact `real` arithmetic;
  - D17's `float('inf')` sentinel is the constructor `Crucible.Infinite`.
- Text is handled as ASCII. Python's Unicode digits, `str.isdigit` on non-ASCII characters and Unicode lower-casing are not modelled.
- Loops without a bound are modelled with a `fuel` parameter. Their contracts cover runs that finish within it, and no termination bound is claimed for the loops themselves. These are:
  - the D20 press loops of both parts;
  - the D8 walks;
  - the D10 loop walk;
  - the D14 cycle search;
  - the D17 queue;
  - the D19 back-walk;
  - the D23 path stack.
- Crucible.Dijkstra: its contract is that a `Some` answer is the least heat loss (or `Infinite` when no route exists). It may also return `None` when the fuel runs out before the queue empties.
- LongWalk.WalkMaze: proves only soundness, not optimality. The answer is -1 or the length of a real hike from start to end. In `walk_maze` sibling branches share one mutated `visited` set, so the longest hike is not always found, and no input showing this was proved.
- Bricks.Stack.StoreSupportStructure: part one in the source fills only the supporter lists. The model uses part two's procedure, which also fills the `supporting` lists, for both parts. Part one reads only the supporter lists, so its answer is the same.
- Pipes.IsPointInPoly: uses the intended ray of the D10/d10p2.py:251-257 Findings row, which bounds the row by the maze's height. The source bounds the row by the width, and the column by the height, so on any maze that is not square the two can disagree (`Pipes.TallMazeMisread`, `Pipes.WideMazeMisread`); on a square maze they agree (`Pipes.SquareRaysAgree`).
- Pipes.ClassifyRow: marks tiles by that intended ray, so on any maze that is not square its marks can differ from the source's.
- Pipes.Classify: likewise marks by the intended ray.
- Pipes.MarkedEnclosed: "enclosed" means enclosed by the intended ray, so on any maze that is not square the count can differ from the source's.
- Pipes.PartTwo: answers the intended ray's count, not the source's on any maze that is not square.
- Workflows.Refined: an accepted comparison narrows by the intended `Tightened` of the D19/d19p2.py:68-74 Findings row. The source keeps a bound already at the compared value (`Workflows.AsWrittenAcceptsBound`); the two differ exactly as `Workflows.AsWrittenDiffers` states. Rejection is the same in both.
- Workflows.RefinedExact: exactness is proved of the intended narrowing only; as written an accepted `x<4000` keeps 4000.
- Workflows.Intervals.Refine: refines in place with the intended narrowing.
- Workflows.SelectRule: accepts its rule with the intended narrowing.
- Workflows.SelectedExact: built on the intended narrowing.
- Workflows.Walk: narrows with the intended `Tightened`, not as written.
- Workflows.WalkExact: built on the intended narrowing; the source's walk can keep ratings that fail the accepting rule.
- Workflows.GetIntervalsForRuleSet: returns the box of the walk with the intended narrowing.
- Workflows.GatherIntervals: gathers the boxes of the walk with the intended narrowing.
- Workflows.CountPermutations: counts an empty range as zero, the intended half of the D19/d19p2.py:128-135 Findings row. The source multiplies `upper - lower + 1` without a clamp, so an empty range counts negatively (`Workflows.AsWrittenCountsEmptyNegative`).
- Workflows.SumCountsBounds: "never negative" holds of the clamped count only; the source's sum can go negative.
- Workflows.TotalBounds: "never negative" holds of the clamped count only.
- Workflows.FindAcceptedCombinations: sums intended counts over the boxes of the intended walk, so on the inputs of both D19 Findings rows it is not the source's total.
- Contraption.ColumnEntriesSpec: describes the intended first loop of the D16/d16p2.py:114 Findings row. The source appends `(0, len(data) - 1, 'N')` for every column (`Contraption.BottomEntryMissed`).
- Contraption.EntryBeams: builds the intended entries, which include the bottom-row beams heading north that the source never tries.
- Contraption.MostEnergy: maximises over the intended entries, so its answer can exceed the source's.
- Lagoon.Decode: a colour whose distance carries a minus sign, such as `(#-ffff0)`, reads as -65535 in the source (`Lagoon.PyHexMinus`, `Lagoon.PyHexSignedExample`) and yields an instruction with a negative distance. An `Instruction` here holds a non-negative distance, because part one's `dig` steps through `amt` cells, so `Decode` refuses such a line (`Lagoon.DecodeReads`). Every other form `int(_, 16)` accepts (blanks, a `+`, a `0x` prefix, underscores) is read as the source reads it.
- Lagoon.PyHex: handles ASCII only, like `Text.PyInt`; Python's `int` also accepts non-ASCII digits and blanks.
- Text.Decimal: reads only a non-empty run of ASCII digits. Python's `int()`, modelled whole as `Text.PyInt`, also accepts surrounding whitespace, a sign and single underscores between digits (`Text.PyIntSigned`, `Text.PyIntPadded`, `Text.PyIntGrouped`); `Text.DecimalIsPyInt` proves the two agree wherever `Decimal` succeeds. The parsers built on `Decimal` (the D5 numbers, the D7 bids, the D15 focal lengths, the D19 rule values) return `None` on such a field where the source reads a number.
- Grids are assumed rectangular. The source takes the width from the first row and indexes every other row with it, so a ragged grid raises `IndexError` or runs on; that path is not modelled. EngineSchematic, Galaxies, StepCounter, LongWalk and Contraption require `Rectangular` grids, Lagoon and Pipes require `Rect` ones and hold their mazes in two-dimensional arrays, and Rocks requires a `Platform` of fixed height and width. Crucible has no such precondition: its `Cell` reads 0 off a short row, where the source's `data[loc[0]][loc[1]]` raises `IndexError`.
- The worked examples are proved for D2, D4, D9, D13, the D15 hashes and the first D8 example. The example totals of the other modelled days are not proved. These are D1, D3, D5, D7, D8 (part two), D10, D11, D12, D14, D15, D16, D17, D18, D19, D20, D21, D22 and D23.
- The D20 queue order is a parameter rather than a finding. The source's `heapq` order is modelled as `MinHeap` and the puzzle's first-in first-out delivery as `Fifo`. That the two orders give different counts on some network is not proved.

## Findings

| source | as written | input that shows it | evidently intended | confidence | as-written member | corrected member |
|---|---|---|---|---|---|---|
| D19/d19p2.py:68-74 | accepting `<v` lowers the maximum to `v-1` only when it is greater than `v`, and accepting `>v` raises the minimum only when it is less than `v`, so a bound already at `v` stays and keeps a failing rating | the rule `x<4000` accepted on `[1, 4000]` keeps 4000 | an accepted `<v` caps the range at `v-1` whenever it is not below, and an accepted `>v` raises it to `v+1` | not executed | Workflows.AsWrittenAcceptsBound | Workflows.TightenedExact |
| D19/d19p2.py:128-135 | `count_permutations` multiplies `upper - lower + 1` without clamping at zero, so an empty range counts negatively | the workflow `in{x<10:A,x<5:A,R}` walked back from the unreachable `x<5:A` leaves `x` in `[10, 4]`, counted as -5·4000³ | an empty range contributes no combinations | not executed | Workflows.AsWrittenCountsEmptyNegative | Workflows.PermutationsSpec |
| D10/d10p2.py:251-257 | the ray keeps going while `x < maze_width and y < maze_height`, but `x` is the row and `y` the column | any maze that is not square: the 5-row, 3-column maze `TallMaze` from tile (2, 1), and the 3-row, 5-column maze `WideMaze` from tile (1, 2); on each the ray as written counts 0 crossings, the intended ray 1 (`Pipes.WideMazeMisread` proves the second) | bound the row by the height and the column by the width | not executed | Pipes.TallMazeMisread | Pipes.RayCountsDiagonal |
| D16/d16p2.py:114 | the north-heading entry beams are appended as `(0, len(data)-1, 'N')` for every column | a 2×2 contraption never tries `(1, 0, 'N')` | one beam `(len(data)-1, i, 'N')` per column `i`, entering from the bottom edge | not executed | Contraption.BottomEntryMissed | Contraption.EntriesSpec |
