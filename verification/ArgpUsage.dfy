/** The usage lines: every combination of the alternative argument patterns of an argp tree,
argp/argp-help.c:1382-1456 and 1595-1644. */
module ArgpUsage {
  import opened Limbs
  import opened Sequences

  /** An argp as the usage message sees it: the lines of its args_doc (none for a null pointer). */
  datatype Usage = Usage(lines: seq<string>, children: seq<Usage>)

  predicate Multiple(u: Usage) { |u.lines| > 1 }

  // ----- Combinations -----

  /** argp_args_levels: how many tables of the tree have alternatives. */
  function Levels(u: Usage): (n: nat)
    decreases u
  {
    (if Multiple(u) then 1 else 0) + LevelsAll(u.children)
  }

  function LevelsAll(us: seq<Usage>): (n: nat)
    decreases us
  {
    if us == [] then 0 else Levels(us[0]) + LevelsAll(us[1..])
  }

  /** The number of combinations. */
  function Count(u: Usage): (n: nat)
    ensures n >= 1
    decreases u
  {
    Own(u) * CountAll(u.children)
  }

  function Own(u: Usage): (n: nat)
    ensures n >= 1
  {
    if Multiple(u) then |u.lines| else 1
  }

  function CountAll(us: seq<Usage>): (n: nat)
    ensures n >= 1
    decreases us
  {
    if us == [] then 1 else Count(us[0]) * CountAll(us[1..])
  }

  // ----- The level bytes -----

  /** A C char. */
  type Char = x: int | -128 <= x < 128

  /** Adding one wraps around. */
  function Bump(x: Char): Char { if x == 127 then -128 else x + 1 }

  /** The line that a level selects: the loop that skips lines does nothing for a level below one. */
  function Line(level: int): nat { if level > 0 then level else 0 }

  /** Every level, in preorder of the tables with alternatives, selects a line that is there. */
  ghost predicate State(u: Usage, d: seq<Char>)
    decreases u
  {
    && |d| == Levels(u)
    && if Multiple(u) then Line(d[0]) < |u.lines| && StateAll(u.children, d[1..]) else StateAll(u.children, d)
  }

  ghost predicate StateAll(us: seq<Usage>, d: seq<Char>)
    decreases us
  {
    if us == [] then d == [] else
      |d| == LevelsAll(us) && State(us[0], d[..Levels(us[0])]) && StateAll(us[1..], d[Levels(us[0])..])
  }

  predicate NonNegative(d: seq<Char>) { forall i :: 0 <= i < |d| ==> d[i] >= 0 }

  /** A choice picks a line of every table with alternatives. */
  ghost predicate Choice(u: Usage, d: seq<Char>) { State(u, d) && NonNegative(d) }

  ghost predicate ChoiceAll(us: seq<Usage>, d: seq<Char>) { StateAll(us, d) && NonNegative(d) }

  /** The arguments printed for some levels. */
  function Pattern(u: Usage, d: seq<Char>): seq<string>
    requires State(u, d)
    decreases u
  {
    if Multiple(u) then [u.lines[Line(d[0])]] + PatternAll(u.children, d[1..])
    else u.lines + PatternAll(u.children, d)
  }

  function PatternAll(us: seq<Usage>, d: seq<Char>): seq<string>
    requires StateAll(us, d)
    decreases us
  {
    if us == [] then [] else Pattern(us[0], d[..Levels(us[0])]) + PatternAll(us[1..], d[Levels(us[0])..])
  }

  // ----- The order of the choices: earlier children change fastest, the table itself last -----

  function Rank(u: Usage, d: seq<Char>): (v: nat)
    requires Choice(u, d)
    ensures v < Count(u)
    decreases u
  {
    if Multiple(u) then
      var w := RankAll(u.children, d[1..]);
      DigitBound(d[0], |u.lines|, w, CountAll(u.children));
      d[0] * CountAll(u.children) + w
    else RankAll(u.children, d)
  }

  function RankAll(us: seq<Usage>, d: seq<Char>): (v: nat)
    requires ChoiceAll(us, d)
    ensures v < CountAll(us)
    decreases us
  {
    if us == [] then 0 else
      var v, w := Rank(us[0], d[..Levels(us[0])]), RankAll(us[1..], d[Levels(us[0])..]);
      DigitBound(w, CountAll(us[1..]), v, Count(us[0]));
      w * Count(us[0]) + v
  }

  lemma DigitBound(x: nat, m: nat, y: nat, n: nat)
    requires x < m && y < n
    ensures 0 <= x * n + y < m * n && x * n + y < n * m
  {
    assert (x + 1) * n <= m * n;
  }

  // ----- One pass over the tree -----

  /** The new levels, and whether the advance is still to be made by someone above or to the right. */
  function Step(u: Usage, d: seq<Char>, advance: bool): (r: (seq<Char>, bool))
    requires State(u, d)
    ensures |r.0| == |d|
    decreases u
  {
    if Multiple(u) then
      var (c, carry) := StepAll(u.children, d[1..], advance);
      if !carry then ([d[0]] + c, false)
      else if Line(d[0]) < |u.lines| - 1 then ([Bump(d[0])] + c, false)
      else ([if d[0] > 0 then 0 else d[0]] + c, true)
    else StepAll(u.children, d, advance)
  }

  function StepAll(us: seq<Usage>, d: seq<Char>, advance: bool): (r: (seq<Char>, bool))
    requires StateAll(us, d)
    ensures |r.0| == |d|
    decreases us
  {
    if us == [] then ([], advance) else
      var (c, carry) := Step(us[0], d[..Levels(us[0])], advance);
      var (e, carry') := StepAll(us[1..], d[Levels(us[0])..], carry);
      (c + e, carry')
  }

  lemma {:induction false} StepState(u: Usage, d: seq<Char>, advance: bool)
    requires State(u, d)
    ensures State(u, Step(u, d, advance).0)
    decreases u
  {
    if Multiple(u) {
      StepStateAll(u.children, d[1..], advance);
      var (c, _) := StepAll(u.children, d[1..], advance);
      assert Step(u, d, advance).0[1..] == c;
    } else {
      StepStateAll(u.children, d, advance);
    }
  }

  lemma {:induction false} StepStateAll(us: seq<Usage>, d: seq<Char>, advance: bool)
    requires StateAll(us, d)
    ensures StateAll(us, StepAll(us, d, advance).0)
    decreases us
  {
    if us != [] {
      var n := Levels(us[0]);
      StepState(us[0], d[..n], advance);
      var (c, carry) := Step(us[0], d[..n], advance);
      StepStateAll(us[1..], d[n..], carry);
      var (e, _) := StepAll(us[1..], d[n..], carry);
      assert (c + e)[..n] == c && (c + e)[n..] == e;
    }
  }

  // ----- The pass is the successor of the choice -----

  /** No table has more lines than a level byte can count. */
  predicate Small(u: Usage)
    decreases u
  {
    |u.lines| <= 128 && SmallAll(u.children)
  }

  predicate SmallAll(us: seq<Usage>)
    decreases us
  {
    us != [] ==> Small(us[0]) && SmallAll(us[1..])
  }

  /** After a digit y below n comes y + 1, or 0 and a carry to the digit x below m. */
  lemma DigitStep(x: nat, m: nat, y: nat, n: nat)
    requires x < m && y < n
    ensures y + 1 < n ==> x * n + (y + 1) == x * n + y + 1 < n * m
    ensures y + 1 == n && x + 1 < m ==> (x + 1) * n + 0 == x * n + y + 1 < n * m
    ensures y + 1 == n && x + 1 == m ==> x * n + y + 1 == n * m
    ensures n * m == m * n
  {
    if y + 1 < n { DigitBound(x, m, y + 1, n); }
    if y + 1 == n && x + 1 < m { DigitBound(x + 1, m, 0, n); }
  }

  lemma {:induction false} StepRank(u: Usage, d: seq<Char>, advance: bool)
    requires Choice(u, d) && Small(u)
    ensures var (d', carry) := Step(u, d, advance);
      && Choice(u, d') && carry == (advance && Rank(u, d) + 1 == Count(u))
      && Rank(u, d') == if !advance then Rank(u, d) else if carry then 0 else Rank(u, d) + 1
    decreases u
  {
    StepState(u, d, advance);
    if Multiple(u) {
      var (c, carry) := StepAll(u.children, d[1..], advance);
      StepRankAll(u.children, d[1..], advance);
      var (d', _) := Step(u, d, advance);
      assert d'[1..] == c;
      DigitStep(d[0], |u.lines|, RankAll(u.children, d[1..]), CountAll(u.children));
      hide *;
    } else {
      StepRankAll(u.children, d, advance);
    }
  }

  lemma {:induction false} StepRankAll(us: seq<Usage>, d: seq<Char>, advance: bool)
    requires ChoiceAll(us, d) && SmallAll(us)
    ensures var (d', carry) := StepAll(us, d, advance);
      && ChoiceAll(us, d') && carry == (advance && RankAll(us, d) + 1 == CountAll(us))
      && RankAll(us, d') == if !advance then RankAll(us, d) else if carry then 0 else RankAll(us, d) + 1
    decreases us
  {
    StepStateAll(us, d, advance);
    if us != [] {
      var n := Levels(us[0]);
      var (c, carry) := Step(us[0], d[..n], advance);
      var (e, _) := StepAll(us[1..], d[n..], carry);
      assert (c + e)[..n] == c && (c + e)[n..] == e;
      StepRank(us[0], d[..n], advance);
      StepRankAll(us[1..], d[n..], carry);
      DigitStep(RankAll(us[1..], d[n..]), CountAll(us[1..]), Rank(us[0], d[..n]), Count(us[0]));
    }
  }

  // ----- Ranks number the choices -----

  lemma DigitsUnique(x: nat, y: nat, x': nat, y': nat, n: nat)
    requires y < n && y' < n && x * n + y == x' * n + y'
    ensures x == x' && y == y'
  {
    QuotRem(x * n + y, x, y, n);
    QuotRem(x * n + y, x', y', n);
  }

  lemma {:induction false} RankInjective(u: Usage, d: seq<Char>, e: seq<Char>)
    requires Choice(u, d) && Choice(u, e) && Rank(u, d) == Rank(u, e)
    ensures d == e
    decreases u
  {
    if Multiple(u) {
      DigitsUnique(d[0], RankAll(u.children, d[1..]), e[0], RankAll(u.children, e[1..]), CountAll(u.children));
      RankAllInjective(u.children, d[1..], e[1..]);
      assert d == [d[0]] + d[1..] && e == [e[0]] + e[1..];
    } else {
      RankAllInjective(u.children, d, e);
    }
  }

  lemma {:induction false} RankAllInjective(us: seq<Usage>, d: seq<Char>, e: seq<Char>)
    requires ChoiceAll(us, d) && ChoiceAll(us, e) && RankAll(us, d) == RankAll(us, e)
    ensures d == e
    decreases us
  {
    if us != [] {
      var n := Levels(us[0]);
      DigitsUnique(RankAll(us[1..], d[n..]), Rank(us[0], d[..n]), RankAll(us[1..], e[n..]), Rank(us[0], e[..n]),
                   Count(us[0]));
      RankInjective(us[0], d[..n], e[..n]);
      RankAllInjective(us[1..], d[n..], e[n..]);
      assert d == d[..n] + d[n..] && e == e[..n] + e[n..];
    }
  }

  /** The levels all zero are the first choice. */
  lemma {:induction false} ZeroFirst(u: Usage, d: seq<Char>)
    requires |d| == Levels(u) && forall i :: 0 <= i < |d| ==> d[i] == 0
    ensures Choice(u, d) && Rank(u, d) == 0
    decreases u
  {
    if Multiple(u) { ZeroAllFirst(u.children, d[1..]); } else { ZeroAllFirst(u.children, d); }
  }

  lemma {:induction false} ZeroAllFirst(us: seq<Usage>, d: seq<Char>)
    requires |d| == LevelsAll(us) && forall i :: 0 <= i < |d| ==> d[i] == 0
    ensures ChoiceAll(us, d) && RankAll(us, d) == 0
    decreases us
  {
    if us != [] {
      ZeroFirst(us[0], d[..Levels(us[0])]);
      ZeroAllFirst(us[1..], d[Levels(us[0])..]);
    }
  }

  // ----- Whole runs -----

  function Zeros(n: nat): (d: seq<Char>)
    ensures |d| == n && forall i :: 0 <= i < n ==> d[i] == 0
  {
    seq(n, _ => 0)
  }

  /** The levels when pass n begins. */
  ghost function Pass(u: Usage, n: nat): (d: seq<Char>)
    ensures State(u, d)
  {
    if n == 0 then ZeroFirst(u, Zeros(Levels(u))); Zeros(Levels(u))
    else StepState(u, Pass(u, n - 1), true); Step(u, Pass(u, n - 1), true).0
  }

  /** Pass n is the last one. */
  ghost predicate Ends(u: Usage, n: nat) { Step(u, Pass(u, n), true).1 }

  /** Pass n prints choice n, and the pass after the last choice's is not made. */
  lemma {:induction false} PassRank(u: Usage, n: nat)
    requires Small(u) && n < Count(u)
    ensures Choice(u, Pass(u, n)) && Rank(u, Pass(u, n)) == n
    ensures Ends(u, n) <==> n + 1 == Count(u)
  {
    if n == 0 {
      ZeroFirst(u, Zeros(Levels(u)));
    } else {
      PassRank(u, n - 1);
      StepRank(u, Pass(u, n - 1), true);
    }
    StepRank(u, Pass(u, n), true);
  }

  /** Every choice is printed in exactly one pass. */
  lemma EachOnce(u: Usage, d: seq<Char>, n: nat)
    requires Small(u) && Choice(u, d) && n < Count(u)
    ensures Pass(u, n) == d <==> n == Rank(u, d)
  {
    PassRank(u, n);
    PassRank(u, Rank(u, d));
    RankInjective(u, Pass(u, Rank(u, d)), d);
  }

  lemma {:induction false} LargeNeverCarries(u: Usage, d: seq<Char>, advance: bool)
    requires State(u, d) && !Small(u)
    ensures !Step(u, d, advance).1
    decreases u
  {
    if !SmallAll(u.children) {
      if Multiple(u) {
        LargeAllNeverCarries(u.children, d[1..], advance);
      } else {
        LargeAllNeverCarries(u.children, d, advance);
      }
    }
  }

  lemma {:induction false} LargeAllNeverCarries(us: seq<Usage>, d: seq<Char>, advance: bool)
    requires StateAll(us, d) && !SmallAll(us)
    ensures !StepAll(us, d, advance).1
    decreases us
  {
    var n := Levels(us[0]);
    var carry := Step(us[0], d[..n], advance).1;
    if Small(us[0]) {
      LargeAllNeverCarries(us[1..], d[n..], carry);
    } else {
      LargeNeverCarries(us[0], d[..n], advance);
      NoAdvance(us[1..], d[n..]);
    }
  }

  lemma {:induction false} NoAdvance(us: seq<Usage>, d: seq<Char>)
    requires StateAll(us, d)
    ensures !StepAll(us, d, false).1
    decreases us, 0
  {
    if us != [] {
      NoAdvanceOne(us[0], d[..Levels(us[0])]);
      NoAdvance(us[1..], d[Levels(us[0])..]);
    }
  }

  lemma {:induction false} NoAdvanceOne(u: Usage, d: seq<Char>)
    requires State(u, d)
    ensures !Step(u, d, false).1
    decreases u, 0
  {
    if Multiple(u) { NoAdvance(u.children, d[1..]); } else { NoAdvance(u.children, d); }
  }

  /** The loop of usage lines ends if and only if no args_doc has more than 128 lines. */
  lemma EndsExactly(u: Usage)
    ensures (exists n: nat :: Ends(u, n)) <==> Small(u)
  {
    if Small(u) {
      PassRank(u, Count(u) - 1);
      assert Ends(u, Count(u) - 1);
    } else {
      forall n: nat
        ensures !Ends(u, n)
      {
        LargeNeverCarries(u, Pass(u, n), true);
      }
    }
  }

  // ----- The program -----

  /** argp_args_levels. */
  method ArgsLevels(u: Usage) returns (levels: nat)
    ensures levels == Levels(u)
    decreases u
  {
    levels := if Multiple(u) then 1 else 0;
    var i := 0;
    assert u.children[0..] == u.children;
    while i < |u.children|
      invariant 0 <= i <= |u.children|
      invariant Levels(u) == levels + LevelsAll(u.children[i..])
    {
      var n := ArgsLevels(u.children[i]);
      levels := levels + n;
      i := i + 1;
    }
  }

  /** What remains to be done from child i on, with the levels from p. */
  ghost predicate ChildrenLeft(us: seq<Usage>, d0: seq<Char>, advance0: bool, i: nat, done: seq<Char>,
                               rest: seq<Char>, advance: bool, out: seq<string>)
  {
    && i <= |us| && StateAll(us, d0) && StateAll(us[i..], rest)
    && StepAll(us, d0, advance0) == (done + StepAll(us[i..], rest, advance).0, StepAll(us[i..], rest, advance).1)
    && PatternAll(us, d0) == out + PatternAll(us[i..], rest)
    && |d0| == |done| + |rest|
  }

  lemma ChildrenBegin(us: seq<Usage>, d: seq<Char>, advance: bool)
    requires StateAll(us, d)
    ensures ChildrenLeft(us, d, advance, 0, [], d, advance, [])
  {
    assert us[0..] == us;
    assert [] + StepAll(us, d, advance).0 == StepAll(us, d, advance).0;
    assert [] + PatternAll(us, d) == PatternAll(us, d);
  }

  lemma ChildrenTurn(us: seq<Usage>, d0: seq<Char>, advance0: bool, i: nat, done: seq<Char>, rest: seq<Char>,
                     advance: bool, out: seq<string>)
    requires ChildrenLeft(us, d0, advance0, i, done, rest, advance, out) && i < |us|
    ensures var n := Levels(us[i]);
      && n <= |rest| && State(us[i], rest[..n])
      && var (c, carry) := Step(us[i], rest[..n], advance);
         ChildrenLeft(us, d0, advance0, i + 1, done + c, rest[n..], carry, out + Pattern(us[i], rest[..n]))
  {
    var n := Levels(us[i]);
    assert us[i..][0] == us[i] && us[i..][1..] == us[i + 1..];
    var (c, carry) := Step(us[i], rest[..n], advance);
    Assoc(done, c, StepAll(us[i + 1..], rest[n..], carry).0);
    Assoc(out, Pattern(us[i], rest[..n]), PatternAll(us[i + 1..], rest[n..]));
  }

  lemma ChildrenEnd(us: seq<Usage>, d0: seq<Char>, advance0: bool, done: seq<Char>, rest: seq<Char>, advance: bool,
                    out: seq<string>)
    requires ChildrenLeft(us, d0, advance0, |us|, done, rest, advance, out)
    ensures rest == [] && StateAll(us, d0) && StepAll(us, d0, advance0) == (done, advance) && PatternAll(us, d0) == out
  {
    assert us[|us|..] == [];
    assert done + [] == done && out + [] == out;
  }

  /** argp_args_usage: prints the arguments for the levels from `pos` and advances them. */
  method ArgsUsage(u: Usage, levels: array<Char>, pos: nat, advance: bool)
    returns (pos': nat, more: bool, out: seq<string>)
    requires pos + Levels(u) <= levels.Length && State(u, levels[pos..pos + Levels(u)])
    modifies levels
    ensures pos' == pos + Levels(u)
    ensures out == Pattern(u, old(levels[pos..pos + Levels(u)]))
    ensures (levels[pos..pos'], !more) == Step(u, old(levels[pos..pos + Levels(u)]), advance)
    ensures levels[..pos] == old(levels[..pos]) && levels[pos'..] == old(levels[pos'..])
    decreases u
  {
    hide StateAll;
    hide StepAll;
    hide PatternAll;
    hide LevelsAll;
    ghost var was := levels[..];
    ghost var d := was[pos..pos + Levels(u)];
    var ourLevel, nl, multiple := pos, 0, Multiple(u);
    pos' := pos;
    if multiple {
      nl := Line(levels[pos]);
      pos' := pos + 1;
      assert was[pos'..pos' + LevelsAll(u.children)] == d[1..];
    }
    out := if |u.lines| > 0 then [u.lines[nl]] else [];
    var carry, childOut;
    pos', carry, childOut := ChildrenUsage(u.children, levels, pos', advance);
    out := out + childOut;
    ghost var mid := levels[..];
    if carry && multiple {
      if nl < |u.lines| - 1 {
        levels[ourLevel] := Bump(levels[ourLevel]);
        carry := false;
      } else if levels[ourLevel] > 0 {
        levels[ourLevel] := 0;
      }
    }
    if multiple {
      SetHead(was, mid, levels[..], pos, pos');
    }
    more := !carry;
  }

  /** Only the level at the head of the part from pos to end has changed. */
  lemma SetHead(was: seq<Char>, mid: seq<Char>, now: seq<Char>, pos: nat, end: nat)
    requires pos < end <= |mid| == |now| == |was| && now[..pos] == mid[..pos] && now[pos + 1..] == mid[pos + 1..]
    requires mid[..pos + 1] == was[..pos + 1] && mid[end..] == was[end..]
    ensures now[pos..end] == [now[pos]] + mid[pos + 1..end] && now[end..] == was[end..] && now[..pos] == was[..pos]
    ensures mid[pos] == was[pos]
  {
    assert mid[pos] == mid[..pos + 1][pos] == was[..pos + 1][pos];
    assert mid[..pos] == mid[..pos + 1][..pos] && was[..pos] == was[..pos + 1][..pos];
    assert now[pos + 1..end] == now[pos + 1..][..end - pos - 1] && mid[pos + 1..end] == mid[pos + 1..][..end - pos - 1];
    assert now[end..] == now[pos + 1..][end - pos - 1..] && mid[end..] == mid[pos + 1..][end - pos - 1..];
  }

  /** The loop over the children. */
  method ChildrenUsage(us: seq<Usage>, levels: array<Char>, pos: nat, advance: bool)
    returns (pos': nat, carry: bool, out: seq<string>)
    requires pos + LevelsAll(us) <= levels.Length && StateAll(us, levels[pos..pos + LevelsAll(us)])
    modifies levels
    ensures pos' == pos + LevelsAll(us)
    ensures out == PatternAll(us, old(levels[pos..pos + LevelsAll(us)]))
    ensures (levels[pos..pos'], carry) == StepAll(us, old(levels[pos..pos + LevelsAll(us)]), advance)
    ensures levels[..pos] == old(levels[..pos]) && levels[pos'..] == old(levels[pos'..])
    decreases us
  {
    hide *;
    ghost var end, was := pos + LevelsAll(us), levels[..];
    ghost var d := was[pos..end];
    var i := 0;
    pos', carry, out := pos, advance, [];
    LoopBegin(us, d, advance, was, pos, end);
    while i < |us|
      invariant 0 <= i <= |us| && pos <= pos'
      invariant Looping(us, d, advance, i, was, levels[..], pos, pos', end, carry, out)
    {
      ghost var s, p, carry0, out0 := levels[..], pos', carry, out;
      LoopReady(us, d, advance, i, was, s, pos, pos', end, carry, out);
      var more, o;
      pos', more, o := ArgsUsage(us[i], levels, pos', carry);
      carry, out := !more, out + o;
      LoopTurn(us, d, advance, i, was, s, levels[..], pos, p, end, carry0, out0);
      i := i + 1;
    }
    LoopEnd(us, d, advance, was, levels[..], pos, pos', end, carry, out);
  }

  /** The state of the loop over the children: the levels were `was`, are `now`, and are used up to p. */
  ghost predicate Looping(us: seq<Usage>, d: seq<Char>, advance0: bool, i: nat, was: seq<Char>, now: seq<Char>,
                          pos: nat, p: nat, end: nat,
                          carry: bool, out: seq<string>)
  {
    && pos <= p <= end <= |now| == |was| && now[..pos] == was[..pos] && now[p..] == was[p..]
    && ChildrenLeft(us, d, advance0, i, now[pos..p], now[p..end], carry, out)
  }

  lemma LoopBegin(us: seq<Usage>, d: seq<Char>, advance: bool, was: seq<Char>, pos: nat, end: nat)
    requires pos <= end <= |was| && d == was[pos..end] && StateAll(us, d)
    ensures Looping(us, d, advance, 0, was, was, pos, pos, end, advance, [])
  {
    ChildrenBegin(us, d, advance);
    assert was[pos..pos] == [];
    hide ChildrenLeft;
  }

  lemma LoopReady(us: seq<Usage>, d: seq<Char>, advance0: bool, i: nat, was: seq<Char>, s: seq<Char>, pos: nat,
                  p: nat, end: nat,
                  carry: bool, out: seq<string>)
    requires Looping(us, d, advance0, i, was, s, pos, p, end, carry, out) && i < |us|
    ensures p + Levels(us[i]) <= end <= |s| && State(us[i], s[p..p + Levels(us[i])])
    ensures s[p..p + Levels(us[i])] == s[p..end][..Levels(us[i])]
  {
    ChildrenTurn(us, d, advance0, i, s[pos..p], s[p..end], carry, out);
    assert s[p..end][..Levels(us[i])] == s[p..p + Levels(us[i])];
  }

  lemma LoopTurn(us: seq<Usage>, d: seq<Char>, advance0: bool, i: nat, was: seq<Char>, s: seq<Char>, now: seq<Char>,
                 pos: nat, p: nat, end: nat,
                 carry: bool, out: seq<string>)
    requires Looping(us, d, advance0, i, was, s, pos, p, end, carry, out) && i < |us| && |now| == |s|
    requires p + Levels(us[i]) <= end && State(us[i], s[p..p + Levels(us[i])])
    requires s[p..p + Levels(us[i])] == s[p..end][..Levels(us[i])]
    requires now[..p] == s[..p] && now[p + Levels(us[i])..] == s[p + Levels(us[i])..]
    requires now[p..p + Levels(us[i])] == Step(us[i], s[p..p + Levels(us[i])], carry).0
    ensures Looping(us, d, advance0, i + 1, was, now, pos, p + Levels(us[i]), end,
                    Step(us[i], s[p..p + Levels(us[i])], carry).1, out + Pattern(us[i], s[p..p + Levels(us[i])]))
  {
    var q := p + Levels(us[i]);
    ChildrenTurn(us, d, advance0, i, s[pos..p], s[p..end], carry, out);
    hide ChildrenLeft;
    Sliced(s, now, pos, p, q, end);
    assert now[q..] == s[p..][q - p..] && was[q..] == was[p..][q - p..];
  }

  lemma LoopEnd(us: seq<Usage>, d: seq<Char>, advance0: bool, was: seq<Char>, now: seq<Char>, pos: nat, p: nat,
                end: nat,
                carry: bool, out: seq<string>)
    requires Looping(us, d, advance0, |us|, was, now, pos, p, end, carry, out)
    ensures p == end && StateAll(us, d) && (now[pos..p], carry) == StepAll(us, d, advance0) && PatternAll(us, d) == out
    ensures pos <= p <= |now| == |was| && now[..pos] == was[..pos] && now[p..] == was[p..]
  {
    ChildrenEnd(us, d, advance0, now[pos..p], now[p..end], carry, out);
  }

  /** Only the part from p to q has changed. */
  lemma Sliced(was: seq<Char>, now: seq<Char>, start: nat, p: nat, q: nat, end: nat)
    requires |was| == |now| && start <= p <= q <= end <= |was| && now[..p] == was[..p] && now[q..] == was[q..]
    ensures now[start..q] == was[start..p] + now[p..q] && now[q..end] == was[p..end][q - p..]
    ensures now[..start] == was[..start]
  {
    assert now[start..p] == now[..p][start..] && was[start..p] == was[..p][start..];
    assert now[q..end] == now[q..][..end - q] && was[q..end] == was[q..][..end - q];
    assert now[..start] == now[..p][..start] && was[..start] == was[..p][..start];
  }
}
