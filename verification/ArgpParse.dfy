/** Which parser gets a short option: argp/argp-parse.c:310-436 and 725-752. */
module ArgpParse {
  import opened ArgpTree
  import opened Sequences

  // ----- What a table declares to getopt -----

  /** The most recent option up to i that is not an alias (the first one while there is none). */
  function RealAt(opts: seq<Opt>, i: nat): (k: nat)
    requires i < |opts|
    ensures k <= i && (!opts[k].alias || k == 0) && forall m :: k < m <= i ==> opts[m].alias
  {
    if !opts[i].alias || i == 0 then i else RealAt(opts, i - 1)
  }

  /** Option i can be given as a short option: neither it nor the option it is an alias of is mere text. */
  predicate Usable(opts: seq<Opt>, i: nat)
    requires i < |opts|
  {
    !opts[RealAt(opts, i)].doc && IsShort(opts[i])
  }

  /** The keys of the first n options that can be given as short options. */
  function ShortKeys(opts: seq<Opt>, n: nat): (s: seq<int>)
    requires n <= |opts|
  {
    if n == 0 then [] else
      var s := ShortKeys(opts, n - 1);
      if Usable(opts, n - 1) then s + [opts[n - 1].key] else s
  }

  function ParseKeys(a: Argp): seq<int> { ShortKeys(OptionsOf(a), |OptionsOf(a)|) }

  /** The getopt notation for option i: its letter, one colon for an argument, two for an optional one. */
  function Piece(opts: seq<Opt>, i: nat): seq<int>
    requires i < |opts|
  {
    if !Usable(opts, i) then []
    else
      var o := opts[RealAt(opts, i)];
      [opts[i].key] + (if !o.hasArg then [] else if o.argOptional then [':' as int, ':' as int] else [':' as int])
  }

  function Encode(opts: seq<Opt>, n: nat): seq<int>
    requires n <= |opts|
  {
    if n == 0 then [] else Encode(opts, n - 1) + Piece(opts, n - 1)
  }

  function EncodeTable(a: Argp): seq<int> { Encode(OptionsOf(a), |OptionsOf(a)|) }

  function EncodeAll(tables: seq<Argp>): seq<int>
  {
    if tables == [] then [] else EncodeAll(tables[..|tables| - 1]) + EncodeTable(tables[|tables| - 1])
  }

  lemma {:induction false} EncodeKeys(opts: seq<Opt>, n: nat, c: int)
    requires n <= |opts| && c != ':' as int
    ensures c in Encode(opts, n) <==> c in ShortKeys(opts, n)
  {
    if n > 0 {
      EncodeKeys(opts, n - 1, c);
    }
  }

  // ----- The parser's tables -----

  /** struct group, as far as options go: where its options end in the string of all short options. */
  datatype Group = Group(argp: Argp, shortEnd: nat)

  predicate HasGroup(a: Argp) { a.options.Some? || a.parser.Some? }

  /** The groups of tables whose options begin at `at`. */
  function GroupsOf(tables: seq<Argp>, at: nat): seq<Group>
  {
    if tables == [] then [] else
      GroupsOf(tables[..|tables| - 1], at) + GroupOf(tables[|tables| - 1], at + |EncodeAll(tables)|)
  }

  function GroupOf(a: Argp, end: nat): seq<Group> { if HasGroup(a) then [Group(a, end)] else [] }

  /** Which table each group is for: the tables with a group, in order. */
  function GroupTables(tables: seq<Argp>): seq<nat>
  {
    if tables == [] then [] else
      var n := |tables| - 1;
      GroupTables(tables[..n]) + if HasGroup(tables[n]) then [n] else []
  }

  lemma GroupTablesSnoc(tables: seq<Argp>, a: Argp)
    ensures GroupTables(tables + [a]) == GroupTables(tables) + if HasGroup(a) then [|tables|] else []
  {
    assert (tables + [a])[..|tables|] == tables;
  }

  /** Group g is made from table GroupTables[g]. */
  lemma {:induction false} GroupFrom(tables: seq<Argp>, at: nat)
    ensures |GroupsOf(tables, at)| == |GroupTables(tables)|
    ensures forall g :: 0 <= g < |GroupTables(tables)| ==>
      GroupTables(tables)[g] < |tables| && GroupsOf(tables, at)[g].argp == tables[GroupTables(tables)[g]]
  {
    if tables != [] {
      var n := |tables| - 1;
      GroupFrom(tables[..n], at);
    }
  }

  /** Every table with options or a parser has one group, and groups come in the order of the tables. */
  lemma {:induction false} GroupTablesExact(tables: seq<Argp>, k: nat)
    ensures k in GroupTables(tables) <==> k < |tables| && (tables[k].options.Some? || tables[k].parser.Some?)
    ensures forall g, h :: 0 <= g < h < |GroupTables(tables)| ==> GroupTables(tables)[g] < GroupTables(tables)[h]
  {
    hide *;
    GroupTablesHave(tables, k);
    GroupTablesSorted(tables);
  }

  lemma {:induction false} GroupTablesHave(tables: seq<Argp>, k: nat)
    ensures k in GroupTables(tables) <==> k < |tables| && (tables[k].options.Some? || tables[k].parser.Some?)
  {
    if tables != [] {
      GroupTablesHave(tables[..|tables| - 1], k);
    }
  }

  lemma {:induction false} GroupTablesSorted(tables: seq<Argp>)
    ensures forall g :: 0 <= g < |GroupTables(tables)| ==> GroupTables(tables)[g] < |tables|
    ensures forall g, h :: 0 <= g < h < |GroupTables(tables)| ==> GroupTables(tables)[g] < GroupTables(tables)[h]
  {
    hide HasGroup;
    if tables != [] {
      GroupTablesSorted(tables[..|tables| - 1]);
    }
  }

  /** The tables up to one more. */
  lemma Snoc(s: seq<Argp>, a: Argp, at: nat)
    ensures EncodeAll(s + [a]) == EncodeAll(s) + EncodeTable(a)
    ensures GroupsOf(s + [a], at) == GroupsOf(s, at) + GroupOf(a, at + |EncodeAll(s)| + |EncodeTable(a)|)
  {
    assert (s + [a])[..|s|] == s;
  }

  lemma {:induction false} EncodeAppend(s: seq<Argp>, t: seq<Argp>)
    ensures EncodeAll(s + t) == EncodeAll(s) + EncodeAll(t)
    decreases |t|
  {
    hide *;
    if t == [] {
      NoTables(s, t, 0, 0);
    } else {
      var t', a := t[..|t| - 1], t[|t| - 1];
      EncodeAppend(s, t');
      assert t == t' + [a];
      Assoc(s, t', [a]);
      assert s + t == (s + t') + [a];
      Assoc(EncodeAll(s), EncodeAll(t'), EncodeTable(a));
      Snoc(t', a, 0);
      Snoc(s + t', a, 0);
    }
  }

  lemma {:induction false} GroupsAppend(s: seq<Argp>, t: seq<Argp>, at: nat, n: nat)
    requires n == at + |EncodeAll(s)|
    ensures GroupsOf(s + t, at) == GroupsOf(s, at) + GroupsOf(t, n)
    decreases |t|
  {
    hide *;
    if t == [] {
      NoTables(s, t, at, n);
    } else {
      var t', a := t[..|t| - 1], t[|t| - 1];
      var u := s + t';
      assert t == t' + [a];
      Assoc(s, t', [a]);
      assert s + t == u + [a];
      GroupsAppend(s, t', at, n);
      EncodeAppend(s, t');
      Snoc(t', a, n);
      Snoc(u, a, at);
      Assoc(GroupsOf(s, at), GroupsOf(t', n), GroupOf(a, n + |EncodeAll(t')| + |EncodeTable(a)|));
    }
  }

  lemma NoTables(s: seq<Argp>, t: seq<Argp>, at: nat, n: nat)
    requires t == []
    ensures EncodeAll(s + t) == EncodeAll(s) + EncodeAll(t)
    ensures GroupsOf(s + t, at) == GroupsOf(s, at) + GroupsOf(t, n)
  {
    assert s + t == s;
  }

  /** From the strings so0 and gs0, converting the tables done led to so and gs. */
  ghost predicate Converted(so: seq<int>, gs: seq<Group>, so0: seq<int>, gs0: seq<Group>, done: seq<Argp>)
  {
    so == so0 + EncodeAll(done) && gs == gs0 + GroupsOf(done, |so0|)
  }

  lemma NothingConverted(so: seq<int>, gs: seq<Group>)
    ensures Converted(so, gs, so, gs, [])
  {
  }

  lemma ConvertedMore(so: seq<int>, gs: seq<Group>, so0: seq<int>, gs0: seq<Group>, done: seq<Argp>, so': seq<int>,
                      gs': seq<Group>, next: seq<Argp>)
    requires Converted(so, gs, so0, gs0, done) && Converted(so', gs', so, gs, next)
    ensures Converted(so', gs', so0, gs0, done + next)
  {
    EncodeAppend(done, next);
    GroupsAppend(done, next, |so0|, |so|);
    Assoc(so0, EncodeAll(done), EncodeAll(next));
    Assoc(gs0, GroupsOf(done, |so0|), GroupsOf(next, |so|));
    hide EncodeAll;
    hide GroupsOf;
  }

  function Prefix(inOrder: bool, noArgs: bool): seq<int>
  {
    if inOrder then ['-' as int] else if noArgs then ['+' as int] else []
  }

  function TablesOf(argp: Option<Argp>): seq<Argp> { if argp.Some? then Preorder(argp.value) else [] }

  // ----- Looking an option up -----

  /** strchr: the first place of c, or the length if there is none. */
  function FirstIndex(s: seq<int>, c: int): (i: nat)
    ensures i <= |s| && (i < |s| <==> c in s)
    ensures (i < |s| ==> s[i] == c) && forall j :: 0 <= j < i ==> s[j] != c
  {
    if s == [] then 0 else
      var i := FirstIndex(s[..|s| - 1], c);
      if i < |s| - 1 then i else if s[|s| - 1] == c then |s| - 1 else |s|
  }

  lemma {:induction false} FirstIndexAt(s: seq<int>, c: int, i: nat)
    requires i <= |s| && c !in s[..i] && (i < |s| ==> s[i] == c)
    ensures FirstIndex(s, c) == i
    decreases |s|
  {
    if i < |s| {
      if i < |s| - 1 {
        assert s[..|s| - 1][..i] == s[..i];
        FirstIndexAt(s[..|s| - 1], c, i);
      }
    }
  }

  lemma {:induction false} FirstIndexAppend(s: seq<int>, t: seq<int>, c: int)
    ensures FirstIndex(s + t, c) == if c in s then FirstIndex(s, c) else |s| + FirstIndex(t, c)
    decreases |t|
  {
    if t == [] {
      assert s + t == s;
    } else {
      assert (s + t)[..|s + t| - 1] == s + t[..|t| - 1];
      FirstIndexAppend(s, t[..|t| - 1], c);
    }
  }

  /** The number of the first group that ends after place i. */
  function FirstPast(gs: seq<Group>, i: nat): (g: Option<nat>)
    ensures g.Some? ==> g.value < |gs| && gs[g.value].shortEnd > i
    ensures g.Some? ==> forall h :: 0 <= h < g.value ==> gs[h].shortEnd <= i
    ensures g.None? ==> forall h :: 0 <= h < |gs| ==> gs[h].shortEnd <= i
  {
    if gs == [] then None else
      var g := FirstPast(gs[..|gs| - 1], i);
      if g.Some? then g else if gs[|gs| - 1].shortEnd > i then Some(|gs| - 1) else None
  }

  lemma {:induction false} FirstPastPrefix(gs: seq<Group>, n: nat, i: nat)
    requires n <= |gs| && FirstPast(gs[..n], i).Some?
    ensures FirstPast(gs, i) == FirstPast(gs[..n], i)
    decreases |gs|
  {
    if n == |gs| {
      assert gs[..n] == gs;
    } else {
      assert gs[..|gs| - 1][..n] == gs[..n];
      FirstPastPrefix(gs[..|gs| - 1], n, i);
    }
  }

  function GroupFor(so: seq<int>, gs: seq<Group>, c: int): (g: Option<nat>)
    ensures g.Some? ==> g.value < |gs|
  {
    if c in so then FirstPast(gs, FirstIndex(so, c)) else None
  }

  function KeysOf(tables: seq<Argp>): (lists: seq<seq<int>>)
    ensures |lists| == |tables| && forall i :: 0 <= i < |lists| ==> lists[i] == ParseKeys(tables[i])
  {
    seq(|tables|, i requires 0 <= i < |tables| => ParseKeys(tables[i]))
  }

  lemma {:induction false} GroupsEnd(tables: seq<Argp>, at: nat, i: nat)
    requires at + |EncodeAll(tables)| <= i
    ensures FirstPast(GroupsOf(tables, at), i) == None
  {
    if tables != [] {
      var n := |tables| - 1;
      GroupsEnd(tables[..n], at, i);
      PastMore(GroupsOf(tables[..n], at), tables[n], at + |EncodeAll(tables)|, i);
    }
  }

  lemma PastMore(gs: seq<Group>, a: Argp, end: nat, i: nat)
    ensures FirstPast(gs + GroupOf(a, end), i) ==
            if FirstPast(gs, i).Some? then FirstPast(gs, i) else if HasGroup(a) && end > i then Some(|gs|) else None
  {
    if HasGroup(a) {
      assert (gs + [Group(a, end)])[..|gs|] == gs;
    } else {
      assert gs + [] == gs;
    }
  }

  lemma FirstWithSnoc(tables: seq<Argp>, a: Argp, c: int)
    ensures var k := FirstWith(KeysOf(tables), c);
      FirstWith(KeysOf(tables + [a]), c) == if k.Some? then k else if c in ParseKeys(a) then Some(|tables|) else None
  {
    FirstWithMore(KeysOf(tables), ParseKeys(a), c);
    hide FirstWith;
    hide ParseKeys;
    assert KeysOf(tables + [a]) == KeysOf(tables) + [ParseKeys(a)];
  }

  /** The group that a lookup of c in the tables leads to belongs to table k. */
  ghost predicate LeadsTo(tables: seq<Argp>, at: nat, c: int, k: Option<nat>)
  {
    && (c in EncodeAll(tables) <==> k.Some?)
    && (k.Some? ==> k.value < |tables| &&
                    var g := FirstPast(GroupsOf(tables, at), at + FirstIndex(EncodeAll(tables), c));
                    g.Some? && g.value < |GroupTables(tables)| && GroupTables(tables)[g.value] == k.value)
  }

  lemma LeadsToStill(tables: seq<Argp>, a: Argp, at: nat, c: int, k: Option<nat>)
    requires k.Some? && LeadsTo(tables, at, c, k)
    ensures LeadsTo(tables + [a], at, c, k)
  {
    hide EncodeAll;
    hide GroupsOf;
    hide EncodeTable;
    hide FirstIndex;
    hide FirstPast;
    hide GroupOf;
    hide HasGroup;
    hide GroupTables;
    GroupTablesSnoc(tables, a);
    var i := at + FirstIndex(EncodeAll(tables), c);
    FirstIndexAppend(EncodeAll(tables), EncodeTable(a), c);
    PastMore(GroupsOf(tables, at), a, at + |EncodeAll(tables)| + |EncodeTable(a)|, i);
    Snoc(tables, a, at);
  }

  lemma TableKeys(a: Argp, c: int)
    requires c != ':' as int
    ensures c in EncodeTable(a) <==> c in ParseKeys(a)
    ensures c in EncodeTable(a) ==> HasGroup(a)
  {
    EncodeKeys(OptionsOf(a), |OptionsOf(a)|, c);
    OneTable(a, 0);
  }

  lemma LeadsToLast(tables: seq<Argp>, a: Argp, at: nat, c: int)
    requires LeadsTo(tables, at, c, None) && c != ':' as int
    ensures LeadsTo(tables + [a], at, c, if c in ParseKeys(a) then Some(|tables|) else None)
  {
    hide EncodeAll;
    hide GroupsOf;
    hide EncodeTable;
    hide ParseKeys;
    hide FirstIndex;
    hide FirstPast;
    hide GroupOf;
    hide HasGroup;
    hide GroupTables;
    GroupTablesSnoc(tables, a);
    GroupFrom(tables, at);
    TableKeys(a, c);
    Snoc(tables, a, at);
    if c in EncodeTable(a) {
      var i := at + |EncodeAll(tables)| + FirstIndex(EncodeTable(a), c);
      FirstIndexAppend(EncodeAll(tables), EncodeTable(a), c);
      PastMore(GroupsOf(tables, at), a, at + |EncodeAll(tables)| + |EncodeTable(a)|, i);
      GroupsEnd(tables, at, i);
    }
  }

  /** The group found is that of the first table to declare the option. */
  lemma {:induction false} Dispatched(tables: seq<Argp>, at: nat, c: int)
    requires c != ':' as int
    ensures LeadsTo(tables, at, c, FirstWith(KeysOf(tables), c))
    decreases |tables|
  {
    if tables != [] {
      var ts, a := tables[..|tables| - 1], tables[|tables| - 1];
      Dispatched(ts, at, c);
      assert tables == ts + [a];
      FirstWithSnoc(ts, a, c);
      hide *;
      var k := FirstWith(KeysOf(ts), c);
      if k.Some? {
        LeadsToStill(ts, a, at, c, k);
      } else {
        LeadsToLast(ts, a, at, c);
      }
    }
  }

  // ----- What getopt reads -----

  /** In other words: the option is a printable letter, and neither it nor the option it stands for is mere text. */
  lemma UsableMeans(opts: seq<Opt>, i: nat)
    requires i < |opts|
    ensures Usable(opts, i) <==> !opts[RealAt(opts, i)].doc && !opts[i].doc && 32 <= opts[i].key <= 126
  {
  }

  /** The number of colons from place k on. */
  function Colons(so: seq<int>, k: nat): (n: nat)
    requires k <= |so|
    ensures k + n <= |so| && (forall m :: k <= m < k + n ==> so[m] == ':' as int)
    ensures k + n < |so| ==> so[k + n] != ':' as int
    decreases |so| - k
  {
    if k < |so| && so[k] == ':' as int then 1 + Colons(so, k + 1) else 0
  }

  lemma {:induction false} ColonsAre(so: seq<int>, k: nat, n: nat)
    requires k + n <= |so| && (forall m :: k <= m < k + n ==> so[m] == ':' as int)
    requires k + n < |so| ==> so[k + n] != ':' as int
    ensures Colons(so, k) == n
    decreases n
  {
    if n > 0 { ColonsAre(so, k + 1, n - 1); }
  }

  /** The letters that the tables declare, in order. */
  function AllKeys(tables: seq<Argp>): seq<int>
  {
    if tables == [] then [] else AllKeys(tables[..|tables| - 1]) + ParseKeys(tables[|tables| - 1])
  }

  /** Both are empty, or both begin alike. */
  predicate SameHead(s: seq<int>, keys: seq<int>)
  {
    (s == [] <==> keys == []) && (s != [] ==> s[0] == keys[0])
  }

  lemma NoHead()
    ensures SameHead([], [])
  {
  }

  lemma SameHeads(s: seq<int>, keys: seq<int>, s': seq<int>, keys': seq<int>)
    requires SameHead(s, keys) && SameHead(s', keys')
    ensures SameHead(s + s', keys + keys')
  {
  }

  function PieceKey(opts: seq<Opt>, i: nat): seq<int>
    requires i < |opts|
  {
    if Usable(opts, i) then [opts[i].key] else []
  }

  lemma OneMore(opts: seq<Opt>, n: nat)
    requires 0 < n <= |opts|
    ensures Encode(opts, n) == Encode(opts, n - 1) + Piece(opts, n - 1)
    ensures ShortKeys(opts, n) == ShortKeys(opts, n - 1) + PieceKey(opts, n - 1)
    ensures SameHead(Piece(opts, n - 1), PieceKey(opts, n - 1))
  {
    hide Usable;
    hide RealAt;
    assert ShortKeys(opts, n - 1) + [] == ShortKeys(opts, n - 1);
  }

  /** What comes behind the first i options of a table begins with the next letter. */
  lemma {:induction false} OptionsBehind(opts: seq<Opt>, i: nat, n: nat) returns (s: seq<int>, keys: seq<int>)
    requires i <= n <= |opts|
    ensures Encode(opts, n) == Encode(opts, i) + s && ShortKeys(opts, n) == ShortKeys(opts, i) + keys
    ensures SameHead(s, keys)
    decreases n
  {
    hide *;
    if i == n {
      s, keys := [], [];
      NoHead();
    } else {
      s, keys := OptionsBehind(opts, i, n - 1);
      OneMore(opts, n);
      SameHeads(s, keys, Piece(opts, n - 1), PieceKey(opts, n - 1));
      Assoc(Encode(opts, i), s, Piece(opts, n - 1));
      Assoc(ShortKeys(opts, i), keys, PieceKey(opts, n - 1));
      s, keys := s + Piece(opts, n - 1), keys + PieceKey(opts, n - 1);
    }
  }

  lemma {:induction false} TablesBehind(tables: seq<Argp>, t: nat) returns (s: seq<int>, keys: seq<int>)
    requires t <= |tables|
    ensures EncodeAll(tables) == EncodeAll(tables[..t]) + s && AllKeys(tables) == AllKeys(tables[..t]) + keys
    ensures SameHead(s, keys)
    decreases |tables|
  {
    var n := |tables| - 1;
    if t == |tables| {
      s, keys := [], [];
      assert tables[..t] == tables;
    } else {
      s, keys := TablesBehind(tables[..n], t);
      assert tables[..n][..t] == tables[..t];
      var a := tables[n];
      var s', keys' := OptionsBehind(OptionsOf(a), 0, |OptionsOf(a)|);
      SameHeads(s, keys, EncodeTable(a), ParseKeys(a));
      Assoc(EncodeAll(tables[..t]), s, EncodeTable(a));
      Assoc(AllKeys(tables[..t]), keys, ParseKeys(a));
      s, keys := s + EncodeTable(a), keys + ParseKeys(a);
    }
  }

  /** Option i of table t is the first with its letter. */
  ghost predicate FirstDeclared(tables: seq<Argp>, t: nat, i: nat, c: int)
  {
    && t < |tables| && i < |OptionsOf(tables[t])| && Usable(OptionsOf(tables[t]), i)
    && OptionsOf(tables[t])[i].key == c && c !in ShortKeys(OptionsOf(tables[t]), i) && c !in AllKeys(tables[..t])
  }

  lemma {:induction false} DeclaredBefore(opts: seq<Opt>, n: nat, c: int)
    requires n <= |opts|
    ensures c in ShortKeys(opts, n) <==> exists m :: 0 <= m < n && Usable(opts, m) && opts[m].key == c
  {
    hide Usable;
    if n > 0 { DeclaredBefore(opts, n - 1, c); }
  }

  lemma {:induction false} DeclaredIn(tables: seq<Argp>, c: int)
    ensures c in AllKeys(tables) <==> exists t :: 0 <= t < |tables| && c in ParseKeys(tables[t])
    ensures c != ':' as int ==> (c in AllKeys(tables) <==> c in EncodeAll(tables))
  {
    hide ParseKeys;
    hide EncodeTable;
    if tables != [] {
      var n := |tables| - 1;
      DeclaredIn(tables[..n], c);
      if c != ':' as int { TableKeys(tables[n], c); }
      assert tables == tables[..n] + [tables[n]];
    }
  }

  /** The string around option i of table t: what is in front of it, its piece, and what begins with the next letter. */
  lemma Around(tables: seq<Argp>, t: nat, i: nat) returns (s: seq<int>, keys: seq<int>)
    requires t < |tables| && i < |OptionsOf(tables[t])|
    ensures var opts := OptionsOf(tables[t]);
            && EncodeAll(tables) == EncodeAll(tables[..t]) + Encode(opts, i) + Piece(opts, i) + s
            && AllKeys(tables) == AllKeys(tables[..t]) + ShortKeys(opts, i) + PieceKey(opts, i) + keys
    ensures SameHead(s, keys)
  {
    var opts := OptionsOf(tables[t]);
    OneMore(opts, i + 1);
    var s1, keys1 := OptionsBehind(opts, i + 1, |opts|);
    var s2, keys2 := TablesBehind(tables, t + 1);
    WholeTable(tables, t);
    s, keys := s1 + s2, keys1 + keys2;
    hide *;
    SameHeads(s1, keys1, s2, keys2);
    FiveParts(EncodeAll(tables[..t]), Encode(opts, i), Piece(opts, i), s1, s2);
    FiveParts(AllKeys(tables[..t]), ShortKeys(opts, i), PieceKey(opts, i), keys1, keys2);
  }

  lemma WholeTable(tables: seq<Argp>, t: nat)
    requires t < |tables|
    ensures var opts := OptionsOf(tables[t]);
            && EncodeAll(tables[..t + 1]) == EncodeAll(tables[..t]) + Encode(opts, |opts|)
            && AllKeys(tables[..t + 1]) == AllKeys(tables[..t]) + ShortKeys(opts, |opts|)
  {
    hide Encode;
    hide ShortKeys;
    assert tables[..t + 1][..t] == tables[..t];
  }

  lemma FiveParts(a: seq<int>, b: seq<int>, c: seq<int>, d: seq<int>, e: seq<int>)
    ensures (a + ((b + c) + d)) + e == a + b + c + (d + e)
  {
  }

  /** The colons of a piece, and those that might follow. */
  lemma PieceRead(so: seq<int>, front: seq<int>, opts: seq<Opt>, i: nat, s: seq<int>)
    requires i < |opts| && Usable(opts, i) && so == front + Piece(opts, i) + s
    ensures |front| < |so| && so[|front|] == opts[i].key
    ensures var lead := opts[RealAt(opts, i)];
            Colons(so, |front| + 1) == (if !lead.hasArg then 0 else if lead.argOptional then 2 else 1) <==>
            s == [] || s[0] != ':' as int
  {
    var lead := opts[RealAt(opts, i)];
    var n := if !lead.hasArg then 0 else if lead.argOptional then 2 else 1;
    hide Usable;
    hide RealAt;
    assert |Piece(opts, i)| == 1 + n && forall m :: 1 <= m <= n ==> Piece(opts, i)[m] == ':' as int;
    hide Piece;
    var k := |front| + 1;
    forall m | k <= m < k + n
      ensures so[m] == ':' as int
    {
      assert so[m] == Piece(opts, i)[m - k + 1];
    }
    assert s != [] ==> so[k + n] == s[0];
    if s == [] || s[0] != ':' as int { ColonsAre(so, k, n); }
  }

  /** How getopt reads the string, for every tree: at the first place of a letter it finds as many colons as the first
      option with that letter asks for, none without an argument, two for an optional one and one otherwise, exactly
      unless the next letter declared is itself a colon.  What decides is the last option at or before it that
      is not an alias. */
  lemma ReadsColons(so: seq<int>, pre: seq<int>, tables: seq<Argp>, t: nat, i: nat, c: int)
    requires so == pre + EncodeAll(tables) && FirstDeclared(tables, t, i, c) && c != ':' as int && c !in pre
    ensures c in so
    ensures var opts := OptionsOf(tables[t]);
            var lead := opts[RealAt(opts, i)];
            var next := |AllKeys(tables[..t])| + |ShortKeys(opts, i)| + 1;
            Colons(so, FirstIndex(so, c) + 1) == (if !lead.hasArg then 0 else if lead.argOptional then 2 else 1) <==>
            !(next < |AllKeys(tables)| && AllKeys(tables)[next] == ':' as int)
  {
    hide *;
    var front, s, next := SplitAtFirst(so, pre, tables, t, i, c);
    PieceRead(so, front, OptionsOf(tables[t]), i, s);
    assert so[..|front|] == front;
    FirstIndexAt(so, c, |front|);
  }

  lemma SplitAtFirst(so: seq<int>, pre: seq<int>, tables: seq<Argp>, t: nat, i: nat, c: int)
    returns (front: seq<int>, s: seq<int>, next: nat)
    requires so == pre + EncodeAll(tables) && FirstDeclared(tables, t, i, c) && c != ':' as int && c !in pre
    ensures t < |tables| && i < |OptionsOf(tables[t])| && Usable(OptionsOf(tables[t]), i)
    ensures OptionsOf(tables[t])[i].key == c && c !in front
    ensures so == front + Piece(OptionsOf(tables[t]), i) + s
    ensures next == |AllKeys(tables[..t])| + |ShortKeys(OptionsOf(tables[t]), i)| + 1 <= |AllKeys(tables)|
    ensures s == [] <==> next == |AllKeys(tables)|
    ensures s != [] ==> s[0] == AllKeys(tables)[next]
  {
    var opts := OptionsOf(tables[t]);
    var keys;
    s, keys := Around(tables, t, i);
    DeclaredIn(tables[..t], c);
    EncodeKeys(opts, i, c);
    var left, middle := EncodeAll(tables[..t]), Encode(opts, i);
    front := pre + left + middle;
    next := |AllKeys(tables[..t])| + |ShortKeys(opts, i)| + 1;
    assert PieceKey(opts, i) == [c];
    hide EncodeAll;
    hide AllKeys;
    hide Encode;
    hide ShortKeys;
    hide Piece;
    hide PieceKey;
    hide Usable;
    hide RealAt;
    Assoc4(pre, left, middle, Piece(opts, i), s);
    KeyBehind(AllKeys(tables[..t]), ShortKeys(opts, i), c, keys);
  }

  lemma Assoc4(a: seq<int>, b: seq<int>, c: seq<int>, d: seq<int>, e: seq<int>)
    ensures a + (b + c + d + e) == a + b + c + d + e
  {
  }

  lemma KeyBehind(a: seq<int>, b: seq<int>, c: int, keys: seq<int>)
    ensures var all, n := a + b + [c] + keys, |a| + |b| + 1;
            n <= |all| && (keys == [] <==> n == |all|) && (keys != [] ==> all[n] == keys[0])
  {
  }

  /** The first character tells getopt what to do with other arguments: '-' to take them in order, '+' to stop at
      them, anything else to move them behind. */
  datatype Ordering = InOrder | RequireOrder | Permute

  function Reads(so: seq<int>): Ordering
  {
    if so != [] && so[0] == '-' as int then InOrder else if so != [] && so[0] == '+' as int then RequireOrder
        else Permute
  }

  /** With a flag getopt does what the flag says; without one it permutes exactly unless the first letter declared is
      '-' or '+'. */
  lemma ReadsOrdering(so: seq<int>, tables: seq<Argp>, inOrder: bool, noArgs: bool)
    requires so == Prefix(inOrder, noArgs) + EncodeAll(tables)
    ensures inOrder ==> Reads(so) == InOrder
    ensures !inOrder && noArgs ==> Reads(so) == RequireOrder
    ensures !inOrder && !noArgs ==>
              (Reads(so) == Permute <==> AllKeys(tables) == [] || AllKeys(tables)[0] !in ['-' as int, '+' as int])
  {
    var s, keys := TablesBehind(tables, 0);
    assert tables[..0] == [] && EncodeAll([]) == [] && AllKeys([]) == [];
    hide EncodeAll;
    hide AllKeys;
    assert EncodeAll(tables) == s && AllKeys(tables) == keys;
  }

  lemma ReadsAll(so: seq<int>, gs: seq<Group>, argp: Option<Argp>, inOrder: bool, noArgs: bool)
    requires Converted(so, gs, Prefix(inOrder, noArgs), [], TablesOf(argp))
    ensures inOrder ==> Reads(so) == InOrder
    ensures !inOrder && noArgs ==> Reads(so) == RequireOrder
    ensures !inOrder && !noArgs ==>
              (Reads(so) == Permute
               <==> (AllKeys(TablesOf(argp)) == [] || AllKeys(TablesOf(argp))[0] !in ['-' as int, '+' as int]))
    ensures ':' as int !in AllKeys(TablesOf(argp)) ==>
              forall t: nat, i: nat, c: int ::
                FirstDeclared(TablesOf(argp), t, i, c) && c !in Prefix(inOrder, noArgs) ==>
                var opts := OptionsOf(TablesOf(argp)[t]);
                var lead := opts[RealAt(opts, i)];
                c in so && Colons(so, FirstIndex(so, c) + 1)
                  == if !lead.hasArg then 0 else if lead.argOptional then 2 else 1
  {
    var tables := TablesOf(argp);
    hide EncodeAll;
    hide GroupsOf;
    hide Prefix;
    hide TablesOf;
    hide Reads;
    hide Colons;
    hide FirstIndex;
    hide AllKeys;
    hide RealAt;
    ReadsOrdering(so, tables, inOrder, noArgs);
    if ':' as int !in AllKeys(tables) {
      forall t: nat, i: nat, c: int | FirstDeclared(tables, t, i, c) && c !in Prefix(inOrder, noArgs)
        ensures var opts := OptionsOf(tables[t]);
                var lead := opts[RealAt(opts, i)];
                c in so && Colons(so, FirstIndex(so, c) + 1)
                  == if !lead.hasArg then 0 else if lead.argOptional then 2 else 1
      {
        KeyIn(tables, t, i, c);
        ReadsColons(so, Prefix(inOrder, noArgs), tables, t, i, c);
      }
    }
  }

  lemma KeyIn(tables: seq<Argp>, t: nat, i: nat, c: int)
    requires FirstDeclared(tables, t, i, c)
    ensures c in AllKeys(tables)
  {
    var s, keys := Around(tables, t, i);
    assert c in PieceKey(OptionsOf(tables[t]), i);
    hide AllKeys;
    hide ShortKeys;
    hide PieceKey;
  }

  class Parser {
    var shortOpts: seq<int>
    var groups: seq<Group>

    constructor ()
      ensures shortOpts == [] && groups == []
    {
      shortOpts, groups := [], [];
    }

    /** The loop over one table, lines 322-345. */
    method ConvertTable(a: Argp)
      modifies this`shortOpts
      ensures shortOpts == old(shortOpts) + EncodeTable(a)
    {
      var opts := OptionsOf(a);
      var r := 0;
      for i := 0 to |opts|
        invariant i > 0 ==> r == RealAt(opts, i - 1)
        invariant i == 0 ==> r == 0
        invariant shortOpts == old(shortOpts) + Encode(opts, i)
      {
        ghost var before := shortOpts;
        if !opts[i].alias {
          r := i;
        }
        if !opts[r].doc {
          if IsShort(opts[i]) {
            shortOpts := shortOpts + [opts[i].key];
            if opts[r].hasArg {
              shortOpts := shortOpts + [':' as int];
              if opts[r].argOptional {
                shortOpts := shortOpts + [':' as int];
              }
            }
          }
        }
        assert shortOpts == before + Piece(opts, i);
        Assoc(old(shortOpts), Encode(opts, i), Piece(opts, i));
      }
    }

    /** convert_options. */
    method Convert(a: Argp)
      modifies this
      ensures Converted(shortOpts, groups, old(shortOpts), old(groups), Preorder(a))
      decreases a
    {
      hide *;
      ghost var so0, gs0 := shortOpts, groups;
      if HasGroup(a) {
        ConvertTable(a);
        groups := groups + [Group(a, |shortOpts|)];
      }
      ConvertedOne(a, so0, gs0, shortOpts, groups);
      ghost var done := [a];
      for i := 0 to |a.children|
        invariant done == [a] + PreorderAll(a.children[..i])
        invariant Converted(shortOpts, groups, so0, gs0, done)
      {
        ghost var so, gs := shortOpts, groups;
        Convert(a.children[i]);
        ConvertedMore(so, gs, so0, gs0, done, shortOpts, groups, Preorder(a.children[i]));
        OneChildMore(a, i, done);
        done := done + Preorder(a.children[i]);
      }
      WholeTree(a, done);
    }

    /** parser_convert. */
    method ParserConvert(argp: Option<Argp>, inOrder: bool, noArgs: bool)
      requires shortOpts == [] && groups == []
      modifies this
      ensures Converted(shortOpts, groups, Prefix(inOrder, noArgs), [], TablesOf(argp))
      ensures inOrder ==> Reads(shortOpts) == InOrder
      ensures !inOrder && noArgs ==> Reads(shortOpts) == RequireOrder
      ensures !inOrder && !noArgs ==>
                (Reads(shortOpts) == Permute
                 <==> (AllKeys(TablesOf(argp)) == [] || AllKeys(TablesOf(argp))[0] !in ['-' as int, '+' as int]))
      ensures ':' as int !in AllKeys(TablesOf(argp)) ==>
                forall t: nat, i: nat, c: int ::
                  FirstDeclared(TablesOf(argp), t, i, c) && c !in Prefix(inOrder, noArgs) ==>
                  var opts := OptionsOf(TablesOf(argp)[t]);
                  var lead := opts[RealAt(opts, i)];
                  c in shortOpts && Colons(shortOpts, FirstIndex(shortOpts, c) + 1)
                    == if !lead.hasArg then 0 else if lead.argOptional then 2 else 1
    {
      NothingConverted(Prefix(inOrder, noArgs), []);
      hide Converted;
      hide Preorder;
      hide Reads;
      hide Colons;
      hide FirstIndex;
      hide FirstDeclared;
      hide AllKeys;
      hide RealAt;
      hide OptionsOf;
      if inOrder {
        shortOpts := shortOpts + ['-' as int];
      } else if noArgs {
        shortOpts := shortOpts + ['+' as int];
      }
      assert shortOpts == Prefix(inOrder, noArgs);
      if argp.Some? {
        Convert(argp.value);
      }
      ReadsAll(shortOpts, groups, argp, inOrder, noArgs);
    }

    /** The number of the group that parser_parse_opt hands a short option to, lines 735-751; none if the option
        is in no table. */
    method Dispatch(opt: int) returns (r: Option<nat>)
      ensures r == GroupFor(shortOpts, groups, opt)
    {
      var shortIndex := 0;
      while shortIndex < |shortOpts| && shortOpts[shortIndex] != opt
        invariant 0 <= shortIndex <= |shortOpts| && opt !in shortOpts[..shortIndex]
      {
        shortIndex := shortIndex + 1;
      }
      FirstIndexAt(shortOpts, opt, shortIndex);
      if shortIndex == |shortOpts| {
        return None;
      }
      for i := 0 to |groups|
        invariant FirstPast(groups[..i], shortIndex) == None
      {
        assert groups[..i + 1][..i] == groups[..i];
        if groups[i].shortEnd > shortIndex {
          FirstPastPrefix(groups, i + 1, shortIndex);
          return Some(i);
        }
      }
      assert groups[..|groups|] == groups;
      return None;
    }
  }

  lemma OneTable(a: Argp, at: nat)
    ensures EncodeAll([a]) == EncodeTable(a)
    ensures GroupsOf([a], at) == if HasGroup(a) then [Group(a, at + |EncodeTable(a)|)] else []
    ensures !HasGroup(a) ==> EncodeTable(a) == []
  {
    assert [a][..0] == [];
  }

  lemma ConvertedOne(a: Argp, so0: seq<int>, gs0: seq<Group>, so: seq<int>, gs: seq<Group>)
    requires HasGroup(a) ==> so == so0 + EncodeTable(a) && gs == gs0 + [Group(a, |so|)]
    requires !HasGroup(a) ==> so == so0 && gs == gs0
    ensures Converted(so, gs, so0, gs0, [a]) && [a] == [a] + PreorderAll(a.children[..0])
  {
    OneTable(a, |so0|);
    NoChildren(a);
    hide EncodeAll;
    hide EncodeTable;
    hide GroupsOf;
    hide GroupOf;
    hide HasGroup;
    hide PreorderAll;
    assert so0 + [] == so0 && gs0 + [] == gs0;
  }

  lemma NoChildren(a: Argp)
    ensures [a] == [a] + PreorderAll(a.children[..0])
  {
  }

  lemma WholeTree(a: Argp, done: seq<Argp>)
    requires done == [a] + PreorderAll(a.children[..|a.children|])
    ensures done == Preorder(a)
  {
    assert a.children[..|a.children|] == a.children;
  }

  lemma OneChildMore(a: Argp, i: nat, done: seq<Argp>)
    requires i < |a.children| && done == [a] + PreorderAll(a.children[..i])
    ensures done + Preorder(a.children[i]) == [a] + PreorderAll(a.children[..i + 1])
  {
    Assoc([a], PreorderAll(a.children[..i]), Preorder(a.children[i]));
    PreorderAppend(a.children[..i], [a.children[i]]);
    assert a.children[..i + 1] == a.children[..i] + [a.children[i]];
    assert PreorderAll([a.children[i]]) == Preorder(a.children[i]);
  }

  /** For every tree and every code that getopt can return, the option goes to the group of the first table in
      preorder that declares it, and to none if none does.  Tables are told apart by their place in the tree. */
  lemma FirstDeclarerParses(so: seq<int>, gs: seq<Group>, argp: Option<Argp>, inOrder: bool, noArgs: bool, c: int)
    requires Converted(so, gs, Prefix(inOrder, noArgs), [], TablesOf(argp))
    requires c != ':' as int && c !in Prefix(inOrder, noArgs)
    ensures var k := FirstWith(KeysOf(TablesOf(argp)), c);
      && (GroupFor(so, gs, c).Some? <==> k.Some?)
      && (k.Some? ==> GroupFor(so, gs, c).value < |GroupTables(TablesOf(argp))|
                      && GroupTables(TablesOf(argp))[GroupFor(so, gs, c).value] == k.value)
  {
    hide EncodeAll;
    hide GroupsOf;
    hide FirstIndex;
    hide FirstPast;
    hide FirstWith;
    hide KeysOf;
    hide Prefix;
    hide TablesOf;
    var pre, tables := Prefix(inOrder, noArgs), TablesOf(argp);
    Dispatched(tables, |pre|, c);
    FirstIndexAppend(pre, EncodeAll(tables), c);
    assert [] + GroupsOf(tables, |pre|) == GroupsOf(tables, |pre|);
  }

  function Letter(key: int): Opt { Opt(None, key, false, false, false, false, false, 0) }

  lemma TwoLetters(k: int, l: int)
    requires 32 <= k <= 126 && 32 <= l <= 126
    ensures EncodeAll([Argp(Some([Letter(k), Letter(l)]), None, [])]) == [k, l]
  {
    var a := Argp(Some([Letter(k), Letter(l)]), None, []);
    assert [a][..0] == [];
    var opts := OptionsOf(a);
    assert Encode(opts, 0) == [] && Encode(opts, 1) == [k] && Encode(opts, 2) == [k, l];
  }

  /** An option without argument, followed by one with the key ':', reads as one with an argument. */
  lemma ColonMisread()
    ensures Colons(EncodeAll([Argp(Some([Letter('o' as int), Letter(':' as int)]), None, [])]), 1) == 1
  {
    TwoLetters('o' as int, ':' as int);
    hide EncodeAll;
    assert Colons(['o' as int, ':' as int], 2) == 0;
  }

  /** A first option with the key '+' reads as the demand to stop at other arguments. */
  lemma PlusMisread()
    ensures Reads(Prefix(false, false) + EncodeAll([Argp(Some([Letter('+' as int), Letter('x' as int)]), None, [])]))
         == RequireOrder
  {
    TwoLetters('+' as int, 'x' as int);
    hide EncodeAll;
  }
}
