/** What the usage lines show: every way to take one line of each args_doc, argp/argp-help.c:1403-1456 and 1595-1644. */
module ArgpPatterns {
  import opened ArgpUsage
  import opened Limbs
  import opened Sequences

  // ----- The tree as a list of tables -----

  /** The lines of every table that has some, in preorder. */
  function Tables(u: Usage): (ts: seq<seq<string>>)
    decreases u
  {
    (if u.lines == [] then [] else [u.lines]) + TablesAll(u.children)
  }

  function TablesAll(us: seq<Usage>): seq<seq<string>>
    decreases us
  {
    if us == [] then [] else Tables(us[0]) + TablesAll(us[1..])
  }

  /** A table comes before its children, and children in their order. */
  lemma {:induction false} TablesInOrder(u: Usage, us: seq<Usage>, vs: seq<Usage>)
    ensures Tables(u) == (if u.lines == [] then [] else [u.lines]) + TablesAll(u.children)
    ensures TablesAll([]) == [] && TablesAll([u]) == Tables(u) && TablesAll(us + vs) == TablesAll(us) + TablesAll(vs)
    decreases |us|
  {
    if us == [] {
      assert us + vs == vs;
    } else {
      assert (us + vs)[1..] == us[1..] + vs;
      TablesInOrder(u, us[1..], vs);
      Assoc(Tables(us[0]), TablesAll(us[1..]), TablesAll(vs));
    }
  }

  /** How many of the first t tables have alternatives, and so a level. */
  function Before(ts: seq<seq<string>>, t: nat): (n: nat)
    requires t <= |ts|
  {
    if t == 0 then 0 else Before(ts, t - 1) + if |ts[t - 1]| > 1 then 1 else 0
  }

  lemma {:induction false} BeforeMono(ts: seq<seq<string>>, s: nat, t: nat)
    requires s < t <= |ts|
    ensures Before(ts, s) + (if |ts[s]| > 1 then 1 else 0) <= Before(ts, t)
    decreases t
  {
    if s < t - 1 { BeforeMono(ts, s, t - 1); }
  }

  lemma {:induction false} BeforeLeft(x: seq<seq<string>>, y: seq<seq<string>>, t: nat)
    requires t <= |x|
    ensures Before(x + y, t) == Before(x, t)
  {
    if t > 0 { BeforeLeft(x, y, t - 1); }
  }

  lemma {:induction false} BeforeRight(x: seq<seq<string>>, y: seq<seq<string>>, t: nat)
    requires t <= |y|
    ensures Before(x + y, |x| + t) == Before(x, |x|) + Before(y, t)
  {
    if t == 0 {
      BeforeLeft(x, y, |x|);
    } else {
      BeforeRight(x, y, t - 1);
    }
  }

  /** The levels d select a line in every table. */
  ghost predicate Fits(ts: seq<seq<string>>, d: seq<Char>)
  {
    |d| == Before(ts, |ts|) && forall t :: 0 <= t < |ts| ==> FitsAt(ts, d, t)
  }

  ghost predicate FitsAt(ts: seq<seq<string>>, d: seq<Char>, t: nat)
    requires t < |ts|
  {
    |ts[t]| >= 1 && (|ts[t]| > 1 ==> Before(ts, t) < |d| && Line(d[Before(ts, t)]) < |ts[t]|)
  }

  /** The line of table t for the levels d. */
  function LineAt(ts: seq<seq<string>>, d: seq<Char>, t: nat): string
    requires t < |ts| && FitsAt(ts, d, t)
  {
    ts[t][if |ts[t]| > 1 then Line(d[Before(ts, t)]) else 0]
  }

  /** p takes the line of each table that d selects. */
  ghost predicate Shows(p: seq<string>, ts: seq<seq<string>>, d: seq<Char>)
  {
    Fits(ts, d) && |p| == |ts| && forall t :: 0 <= t < |ts| ==> p[t] == LineAt(ts, d, t)
  }

  lemma LeftAt(x: seq<seq<string>>, y: seq<seq<string>>, c: seq<Char>, d: seq<Char>, t: nat)
    requires |c| == Before(x, |x|) && t < |x|
    ensures FitsAt(x + y, c + d, t) <==> FitsAt(x, c, t)
    ensures FitsAt(x, c, t) ==> LineAt(x + y, c + d, t) == LineAt(x, c, t)
  {
    BeforeLeft(x, y, t);
    BeforeMono(x, t, |x|);
    hide Before;
  }

  lemma RightAt(x: seq<seq<string>>, y: seq<seq<string>>, c: seq<Char>, d: seq<Char>, t: nat)
    requires |c| == Before(x, |x|) && |x| <= t < |x + y|
    ensures FitsAt(x + y, c + d, t) <==> FitsAt(y, d, t - |x|)
    ensures FitsAt(y, d, t - |x|) ==> LineAt(x + y, c + d, t) == LineAt(y, d, t - |x|)
  {
    BeforeRight(x, y, t - |x|);
    hide Before;
  }

  lemma ShowsTogether(p: seq<string>, q: seq<string>, x: seq<seq<string>>, y: seq<seq<string>>, c: seq<Char>,
                      d: seq<Char>)
    requires Shows(p, x, c) && Shows(q, y, d)
    ensures Shows(p + q, x + y, c + d)
  {
    BeforeRight(x, y, |y|);
    hide Before;
    hide FitsAt;
    hide LineAt;
    forall t | 0 <= t < |x + y|
      ensures FitsAt(x + y, c + d, t) && (p + q)[t] == LineAt(x + y, c + d, t)
    {
      if t < |x| { LeftAt(x, y, c, d, t); } else { RightAt(x, y, c, d, t); }
    }
  }

  lemma FitsApart(x: seq<seq<string>>, y: seq<seq<string>>, c: seq<Char>, d: seq<Char>)
    requires |c| == Before(x, |x|) && Fits(x + y, c + d)
    ensures Fits(x, c) && Fits(y, d)
  {
    FitsLeft(x, y, c, d);
    FitsRight(x, y, c, d);
    hide Fits;
  }

  lemma FitsLeft(x: seq<seq<string>>, y: seq<seq<string>>, c: seq<Char>, d: seq<Char>)
    requires |c| == Before(x, |x|) && Fits(x + y, c + d)
    ensures Fits(x, c)
  {
    hide Before;
    hide FitsAt;
    forall t | 0 <= t < |x|
      ensures FitsAt(x, c, t)
    {
      assert FitsAt(x + y, c + d, t);
      LeftAt(x, y, c, d, t);
    }
  }

  lemma FitsRight(x: seq<seq<string>>, y: seq<seq<string>>, c: seq<Char>, d: seq<Char>)
    requires |c| == Before(x, |x|) && Fits(x + y, c + d)
    ensures Fits(y, d)
  {
    BeforeRight(x, y, |y|);
    hide Before;
    hide FitsAt;
    forall t | 0 <= t < |y|
      ensures FitsAt(y, d, t)
    {
      var s := |x| + t;
      assert FitsAt(x + y, c + d, s);
      RightAt(x, y, c, d, s);
    }
  }

  // ----- The tree's recursion and the list say the same -----

  lemma OwnLine(u: Usage, d: seq<Char>)
    requires Multiple(u) ==> |d| >= 1
    ensures var x := if u.lines == [] then [] else [u.lines];
            && Before(x, |x|) == (if Multiple(u) then 1 else 0)
            && (Multiple(u) && Line(d[0]) < |u.lines| ==> Shows([u.lines[Line(d[0])]], x, d[..1]))
            && (Multiple(u) && Fits(x, d[..1]) ==> Line(d[0]) < |u.lines|)
            && (!Multiple(u) ==> Shows(u.lines, x, []))
  {
    var x := if u.lines == [] then [] else [u.lines];
    if u.lines != [] {
      assert Before(x, 0) == 0;
      assert FitsAt(x, d[..if Multiple(u) then 1 else 0], 0) <==> (Multiple(u) ==> Line(d[0]) < |u.lines|);
    }
  }

  lemma {:induction false} LevelsAre(u: Usage)
    ensures Levels(u) == Before(Tables(u), |Tables(u)|)
    decreases u, 0
  {
    var x := if u.lines == [] then [] else [u.lines];
    OwnLine(u, [0]);
    LevelsAllAre(u.children);
    BeforeRight(x, TablesAll(u.children), |TablesAll(u.children)|);
    hide Before;
  }

  lemma {:induction false} LevelsAllAre(us: seq<Usage>)
    ensures LevelsAll(us) == Before(TablesAll(us), |TablesAll(us)|)
    decreases us, 0
  {
    if us != [] {
      LevelsAre(us[0]);
      LevelsAllAre(us[1..]);
      BeforeRight(Tables(us[0]), TablesAll(us[1..]), |TablesAll(us[1..])|);
    }
  }

  /** What is printed for some levels takes from each table the line that the table's level selects. */
  lemma {:induction false} PatternShows(u: Usage, d: seq<Char>)
    requires State(u, d)
    ensures Shows(Pattern(u, d), Tables(u), d)
    decreases u
  {
    var x := if u.lines == [] then [] else [u.lines];
    OwnLine(u, d);
    hide Before;
    hide Shows;
    if Multiple(u) {
      PatternAllShows(u.children, d[1..]);
      ShowsTogether([u.lines[Line(d[0])]], PatternAll(u.children, d[1..]), x, TablesAll(u.children), d[..1], d[1..]);
      assert d == d[..1] + d[1..];
    } else {
      PatternAllShows(u.children, d);
      ShowsTogether(u.lines, PatternAll(u.children, d), x, TablesAll(u.children), [], d);
      assert d == [] + d;
    }
  }

  lemma {:induction false} PatternAllShows(us: seq<Usage>, d: seq<Char>)
    requires StateAll(us, d)
    ensures Shows(PatternAll(us, d), TablesAll(us), d)
    decreases us
  {
    if us != [] {
      var n := Levels(us[0]);
      PatternShows(us[0], d[..n]);
      PatternAllShows(us[1..], d[n..]);
      ShowsTogether(Pattern(us[0], d[..n]), PatternAll(us[1..], d[n..]), Tables(us[0]), TablesAll(us[1..]), d[..n],
                    d[n..]);
      assert d == d[..n] + d[n..];
    }
  }

  /** Levels that select a line of every table of the list are levels for the tree. */
  lemma {:induction false} FitsState(u: Usage, d: seq<Char>)
    requires Fits(Tables(u), d)
    ensures State(u, d)
    decreases u
  {
    var x, n := if u.lines == [] then [] else [u.lines], if Multiple(u) then 1 else 0;
    LevelsAre(u);
    OwnLine(u, d);
    assert d == d[..n] + d[n..];
    FitsApart(x, TablesAll(u.children), d[..n], d[n..]);
    hide Fits;
    hide Before;
    FitsStateAll(u.children, d[n..]);
    assert d[0..] == d;
  }

  lemma {:induction false} FitsStateAll(us: seq<Usage>, d: seq<Char>)
    requires Fits(TablesAll(us), d)
    ensures StateAll(us, d)
    decreases us
  {
    LevelsAllAre(us);
    if us != [] {
      var n := Levels(us[0]);
      LevelsAre(us[0]);
      assert d == d[..n] + d[n..];
      FitsApart(Tables(us[0]), TablesAll(us[1..]), d[..n], d[n..]);
      FitsState(us[0], d[..n]);
      FitsStateAll(us[1..], d[n..]);
    }
  }

  // ----- Every combination, once -----

  /** p takes one line of every table, in the order of the tables. */
  predicate OneOfEach(p: seq<string>, ts: seq<seq<string>>)
  {
    |p| == |ts| && forall t :: 0 <= t < |ts| ==> p[t] in ts[t]
  }

  /** No table has more lines than a level can count. */
  predicate AllSmall(ts: seq<seq<string>>) { forall t :: 0 <= t < |ts| ==> |ts[t]| <= 128 }

  lemma {:induction false} SmallTables(u: Usage)
    ensures Small(u) <==> AllSmall(Tables(u))
    decreases u, 0
  {
    SmallAllTables(u.children);
    var x, y := if u.lines == [] then [] else [u.lines], TablesAll(u.children);
    assert u.lines != [] ==> x[0] == u.lines;
    SmallTogether(x, y);
  }

  lemma {:induction false} SmallAllTables(us: seq<Usage>)
    ensures SmallAll(us) <==> AllSmall(TablesAll(us))
    decreases us, 0
  {
    if us != [] {
      SmallTables(us[0]);
      SmallAllTables(us[1..]);
      SmallTogether(Tables(us[0]), TablesAll(us[1..]));
    }
  }

  lemma SmallTogether(x: seq<seq<string>>, y: seq<seq<string>>)
    ensures AllSmall(x + y) <==> AllSmall(x) && AllSmall(y)
  {
    if AllSmall(x + y) {
      forall t | 0 <= t < |x|
        ensures |x[t]| <= 128
      {
        assert (x + y)[t] == x[t];
      }
      forall t | 0 <= t < |y|
        ensures |y[t]| <= 128
      {
        assert (x + y)[|x| + t] == y[t];
      }
    }
  }

  /** For every combination of lines there are levels that show it. */
  lemma {:induction false} LevelsFor(p: seq<string>, ts: seq<seq<string>>) returns (d: seq<Char>)
    requires OneOfEach(p, ts) && AllSmall(ts)
    ensures Shows(p, ts, d) && NonNegative(d)
    decreases |ts|
  {
    if ts == [] {
      d := [];
    } else {
      var n := |ts| - 1;
      var c := LevelsFor(p[..n], ts[..n]);
      var k := LineFor(ts[n], p[n]);
      var e: seq<Char> := if |ts[n]| > 1 then [k] else [];
      OneTable(ts[n], e, k);
      ShowsTogether(p[..n], [p[n]], ts[..n], [ts[n]], c, e);
      assert p == p[..n] + [p[n]] && ts == ts[..n] + [ts[n]];
      d := c + e;
    }
  }

  lemma LineFor(lines: seq<string>, l: string) returns (k: nat)
    requires l in lines
    ensures k < |lines| && lines[k] == l
  {
    k :| k < |lines| && lines[k] == l;
  }

  lemma OneTable(lines: seq<string>, e: seq<Char>, k: nat)
    requires k < |lines| && if |lines| > 1 then |e| == 1 && e[0] == k else e == []
    ensures Shows([lines[k]], [lines], e)
  {
    var ts := [lines];
    assert Before(ts, 0) == 0;
    assert FitsAt(ts, e, 0);
  }

  predicate Distinct(lines: seq<string>) { forall i, j :: 0 <= i < j < |lines| ==> lines[i] != lines[j] }

  predicate AllDistinct(ts: seq<seq<string>>) { forall t :: 0 <= t < |ts| ==> Distinct(ts[t]) }

  /** Where no table repeats a line, different levels show different combinations. */
  lemma {:induction false} ShowsOnce(p: seq<string>, ts: seq<seq<string>>, c: seq<Char>, d: seq<Char>)
    requires Shows(p, ts, c) && Shows(p, ts, d) && NonNegative(c) && NonNegative(d) && AllDistinct(ts)
    ensures c == d
  {
    forall l | 0 <= l < |c|
      ensures c[l] == d[l]
    {
      var t := TableOf(ts, |ts|, l);
      assert FitsAt(ts, c, t) && FitsAt(ts, d, t);
      assert LineAt(ts, c, t) == LineAt(ts, d, t);
      assert Distinct(ts[t]);
    }
  }

  /** Every level belongs to a table with alternatives. */
  lemma {:induction false} TableOf(ts: seq<seq<string>>, n: nat, l: nat) returns (t: nat)
    requires n <= |ts| && l < Before(ts, n)
    ensures t < n && |ts[t]| > 1 && Before(ts, t) == l
    decreases n
  {
    if l < Before(ts, n - 1) {
      t := TableOf(ts, n - 1, l);
    } else {
      t := n - 1;
    }
  }

  /** How many combinations there are. */
  function Product(ts: seq<seq<string>>): nat
  {
    if ts == [] then 1 else |ts[0]| * Product(ts[1..])
  }

  lemma {:induction false} ProductTogether(x: seq<seq<string>>, y: seq<seq<string>>)
    ensures Product(x + y) == Product(x) * Product(y)
    decreases |x|
  {
    if x == [] {
      assert x + y == y;
    } else {
      assert (x + y)[1..] == x[1..] + y;
      ProductTogether(x[1..], y);
      MulAssoc3(|x[0]|, Product(x[1..]), Product(y));
    }
  }

  lemma MulAssoc3(a: nat, b: nat, c: nat)
    ensures a * (b * c) == (a * b) * c
  {
  }

  lemma {:induction false} CountIs(u: Usage)
    ensures Count(u) == Product(Tables(u))
    decreases u, 0
  {
    var x := if u.lines == [] then [] else [u.lines];
    assert x != [] ==> x[1..] == [] && Product(x) == |u.lines| * Product(x[1..]) == |u.lines|;
    CountAllIs(u.children);
    ProductTogether(x, TablesAll(u.children));
  }

  lemma {:induction false} CountAllIs(us: seq<Usage>)
    ensures CountAll(us) == Product(TablesAll(us))
    decreases us, 0
  {
    if us != [] {
      CountIs(us[0]);
      CountAllIs(us[1..]);
      ProductTogether(Tables(us[0]), TablesAll(us[1..]));
    }
  }

  /** Some pass prints p. */
  lemma PassFor(u: Usage, p: seq<string>) returns (n: nat)
    requires Small(u) && OneOfEach(p, Tables(u))
    ensures n < Count(u) && Pattern(u, Pass(u, n)) == p
  {
    SmallTables(u);
    var d := LevelsFor(p, Tables(u));
    FitsState(u, d);
    n := Rank(u, d);
    EachOnce(u, d, n);
    PatternShows(u, d);
    SameShown(p, Pattern(u, d), Tables(u), d);
  }

  lemma SameShown(p: seq<string>, q: seq<string>, ts: seq<seq<string>>, d: seq<Char>)
    requires Shows(p, ts, d) && Shows(q, ts, d)
    ensures p == q
  {
    hide LineAt;
    hide Fits;
  }

  /** Two passes print different lines. */
  lemma PassesDiffer(u: Usage, m: nat, n: nat)
    requires Small(u) && m < n < Count(u) && AllDistinct(Tables(u))
    ensures Pattern(u, Pass(u, m)) != Pattern(u, Pass(u, n))
  {
    PassRank(u, m);
    PassRank(u, n);
    PatternShows(u, Pass(u, m));
    PatternShows(u, Pass(u, n));
    if Pattern(u, Pass(u, m)) == Pattern(u, Pass(u, n)) {
      ShowsOnce(Pattern(u, Pass(u, m)), Tables(u), Pass(u, m), Pass(u, n));
    }
  }

  /** Pass n takes from table t the line that the table's level selects: that of its number among the tables with
      alternatives, and the only line if there is no alternative. */
  lemma PassShows(u: Usage, n: nat, t: nat)
    requires Small(u) && n < Count(u) && t < |Tables(u)|
    ensures var ts, d := Tables(u), Pass(u, n);
            && |ts[t]| >= 1 && |d| == Before(ts, |ts|)
            && (|ts[t]| > 1 ==> Before(ts, t) < |d| && 0 <= d[Before(ts, t)] < |ts[t]|)
            && |Pattern(u, d)| == |ts|
            && Pattern(u, d)[t] == ts[t][if |ts[t]| > 1 then d[Before(ts, t)] else 0]
  {
    PassRank(u, n);
    PatternShows(u, Pass(u, n));
    assert FitsAt(Tables(u), Pass(u, n), t);
  }

  // ----- The order of the lines -----

  /** What is printed in line n. */
  ghost function Nth(u: Usage, n: nat): seq<string> { Pattern(u, Pass(u, n)) }

  /** The children without their parent. */
  function Below(us: seq<Usage>): Usage { Usage([], us) }

  lemma PassIs(u: Usage, d: seq<Char>)
    requires Small(u) && Choice(u, d)
    ensures Nth(u, Rank(u, d)) == Pattern(u, d)
  {
    EachOnce(u, d, Rank(u, d));
  }

  lemma MultipleIs(u: Usage, d: seq<Char>)
    requires Choice(u, d) && Multiple(u)
    ensures |d| > 0 && 0 <= d[0] < |u.lines| && ChoiceAll(u.children, d[1..])
    ensures Rank(u, d) == d[0] * CountAll(u.children) + RankAll(u.children, d[1..])
    ensures Pattern(u, d) == [u.lines[d[0]]] + PatternAll(u.children, d[1..])
  {
  }

  lemma RankOfMultiple(u: Usage, d: seq<Char>)
    requires Choice(u, d) && Multiple(u)
    ensures |d| > 0 && 0 <= d[0] < |u.lines| && Choice(Below(u.children), d[1..])
    ensures Rank(u, d) / CountAll(u.children) == d[0]
    ensures Rank(u, d) % CountAll(u.children) == Rank(Below(u.children), d[1..])
    ensures Pattern(u, d) == [u.lines[d[0]]] + Pattern(Below(u.children), d[1..])
  {
    hide *;
    MultipleIs(u, d);
    BelowIs(u.children, d[1..]);
    QuotRem(Rank(u, d), d[0], RankAll(u.children, d[1..]), CountAll(u.children));
  }

  /** A table's own line changes after all lines below it. */
  lemma OwnLineLast(u: Usage, n: nat)
    requires Small(u) && n < Count(u) && Multiple(u)
    ensures var m := Product(TablesAll(u.children));
            && m > 0 && n / m < |u.lines|
            && Nth(u, n) == [u.lines[n / m]] + Nth(Below(u.children), n % m)
  {
    var d := Pass(u, n);
    PassRank(u, n);
    RankOfMultiple(u, d);
    CountAllIs(u.children);
    hide *;
    PassIs(Below(u.children), d[1..]);
  }

  lemma RankOfList(us: seq<Usage>, d: seq<Char>)
    requires us != [] && ChoiceAll(us, d)
    ensures var k := Levels(us[0]);
            && k <= |d| && Choice(us[0], d[..k]) && ChoiceAll(us[1..], d[k..])
            && RankAll(us, d) % Count(us[0]) == Rank(us[0], d[..k])
            && RankAll(us, d) / Count(us[0]) == RankAll(us[1..], d[k..])
            && PatternAll(us, d) == Pattern(us[0], d[..k]) + PatternAll(us[1..], d[k..])
  {
    var k := Levels(us[0]);
    assert |d| == k + LevelsAll(us[1..]);
    QuotRem(RankAll(us, d), RankAll(us[1..], d[k..]), Rank(us[0], d[..k]), Count(us[0]));
  }

  lemma BelowIs(us: seq<Usage>, d: seq<Char>)
    requires ChoiceAll(us, d)
    ensures Choice(Below(us), d) && Rank(Below(us), d) == RankAll(us, d) && Pattern(Below(us), d) == PatternAll(us, d)
  {
  }

  lemma SingleIs(u: Usage, d: seq<Char>)
    requires Choice(u, d) && !Multiple(u)
    ensures ChoiceAll(u.children, d) && Rank(u, d) == RankAll(u.children, d)
    ensures Pattern(u, d) == u.lines + PatternAll(u.children, d)
  {
  }

  lemma RankOfFirst(u: Usage, d: seq<Char>)
    requires Choice(u, d) && !Multiple(u) && u.children != []
    ensures var c, e, k := u.children[0], Below(u.children[1..]), Levels(u.children[0]);
            && k <= |d| && Choice(c, d[..k]) && Choice(e, d[k..])
            && Rank(u, d) % Count(c) == Rank(c, d[..k]) && Rank(u, d) / Count(c) == Rank(e, d[k..])
            && Pattern(u, d) == u.lines + (Pattern(c, d[..k]) + Pattern(e, d[k..]))
  {
    hide *;
    SingleIs(u, d);
    RankOfList(u.children, d);
    BelowIs(u.children[1..], d[Levels(u.children[0])..]);
  }

  /** And the first child's lines before those of the other children. */
  lemma FirstChildFirst(u: Usage, n: nat)
    requires Small(u) && n < Count(u) && !Multiple(u) && u.children != []
    ensures var c, k := u.children[0], Product(Tables(u.children[0]));
            k > 0 && Nth(u, n) == u.lines + (Nth(c, n % k) + Nth(Below(u.children[1..]), n / k))
  {
    var d, c, k := Pass(u, n), u.children[0], Levels(u.children[0]);
    PassRank(u, n);
    RankOfFirst(u, d);
    CountIs(c);
    PassIs(c, d[..k]);
    PassIs(Below(u.children[1..]), d[k..]);
    hide *;
  }

  /** Pass n of the loop. */
  method OnePass(u: Usage, levels: array<Char>, ghost n: nat) returns (more: bool, out: seq<string>)
    requires Small(u) && n < Count(u) && levels.Length == Levels(u) && levels[..] == Pass(u, n)
    modifies levels
    ensures out == Pattern(u, Pass(u, n)) && (more <==> n + 1 < Count(u))
    ensures more ==> levels[..] == Pass(u, n + 1)
  {
    hide Pattern;
    hide Step;
    hide State;
    hide Small;
    hide Count;
    hide Levels;
    PassRank(u, n);
    assert levels[0..0 + levels.Length] == levels[..];
    var pos;
    pos, more, out := ArgsUsage(u, levels, 0, true);
    assert levels[0..pos] == levels[..];
  }

  /** Lines 1595-1644: one usage line after another, until none is left.  Each takes one line of every table that has
      some, in the order of the tables; every such combination is printed, and as many lines as there are
      combinations, so none twice unless a table repeats a line. */
  method AllPatterns(u: Usage) returns (lines: seq<seq<string>>)
    requires Small(u)
    ensures |lines| == Product(Tables(u))
    ensures forall n :: 0 <= n < |lines| ==> |lines[n]| == |Tables(u)|
    ensures forall n, t :: 0 <= n < |lines| && 0 <= t < |Tables(u)| ==> lines[n][t] in Tables(u)[t]
    ensures forall p: seq<string> ::
              |p| == |Tables(u)| && (forall t :: 0 <= t < |p| ==> p[t] in Tables(u)[t]) ==> p in lines
    ensures (forall t, i, j :: 0 <= t < |Tables(u)| && 0 <= i < j < |Tables(u)[t]| ==>
               Tables(u)[t][i] != Tables(u)[t][j]) ==>
              forall m, n :: 0 <= m < n < |lines| ==> lines[m] != lines[n]
    ensures forall n :: 0 <= n < |lines| ==> lines[n] == Pattern(u, Pass(u, n))
  {
    lines := Loop(u);
    CountIs(u);
    hide *;
    AllShown(u, lines);
  }

  lemma AllShown(u: Usage, lines: seq<seq<string>>)
    requires Small(u) && |lines| == Count(u)
    requires forall n :: 0 <= n < |lines| ==> lines[n] == Pattern(u, Pass(u, n))
    ensures forall n :: 0 <= n < |lines| ==> |lines[n]| == |Tables(u)|
    ensures forall n, t :: 0 <= n < |lines| && 0 <= t < |Tables(u)| ==> lines[n][t] in Tables(u)[t]
    ensures forall p: seq<string> ::
              |p| == |Tables(u)| && (forall t :: 0 <= t < |p| ==> p[t] in Tables(u)[t]) ==> p in lines
    ensures (forall t, i, j :: 0 <= t < |Tables(u)| && 0 <= i < j < |Tables(u)[t]| ==>
               Tables(u)[t][i] != Tables(u)[t][j]) ==>
              forall m, n :: 0 <= m < n < |lines| ==> lines[m] != lines[n]
  {
    hide Tables;
    hide Pattern;
    hide Small;
    hide Count;
    forall n | 0 <= n < |lines|
      ensures |lines[n]| == |Tables(u)|
    {
      PassLength(u, n);
    }
    forall n, t | 0 <= n < |lines| && 0 <= t < |Tables(u)|
      ensures lines[n][t] in Tables(u)[t]
    {
      PassShows(u, n, t);
    }
    forall p: seq<string> | |p| == |Tables(u)| && (forall t :: 0 <= t < |p| ==> p[t] in Tables(u)[t])
      ensures p in lines
    {
      var n := PassFor(u, p);
      assert lines[n] == p;
    }
    if forall t, i, j :: 0 <= t < |Tables(u)| && 0 <= i < j < |Tables(u)[t]| ==> Tables(u)[t][i] != Tables(u)[t][j] {
      forall m, n | 0 <= m < n < |lines|
        ensures lines[m] != lines[n]
      {
        PassesDiffer(u, m, n);
      }
    }
  }

  lemma PassLength(u: Usage, n: nat)
    requires Small(u) && n < Count(u)
    ensures |Pattern(u, Pass(u, n))| == |Tables(u)|
  {
    PassRank(u, n);
    PatternShows(u, Pass(u, n));
  }

  method Loop(u: Usage) returns (lines: seq<seq<string>>)
    requires Small(u)
    ensures |lines| == Count(u)
    ensures forall n :: 0 <= n < |lines| ==> lines[n] == Pattern(u, Pass(u, n))
  {
    hide Pattern;
    hide State;
    hide Small;
    hide Count;
    hide Levels;
    var num := ArgsLevels(u);
    var levels := new Char[num](_ => 0);
    assert levels[..] == Zeros(num);
    lines := [];
    var more := true;
    while more
      invariant |lines| <= Count(u) && (more <==> |lines| < Count(u)) && levels.Length == num
      invariant more ==> levels[..] == Pass(u, |lines|)
      invariant forall n :: 0 <= n < |lines| ==> lines[n] == Pattern(u, Pass(u, n))
      decreases Count(u) - |lines|
    {
      var out;
      more, out := OnePass(u, levels, |lines|);
      lines := lines + [out];
    }
  }
}
