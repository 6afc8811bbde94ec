/** Help and parser give each short option to the same table: the two walks of argp/argp-help.c and
argp/argp-parse.c compared. */
module ArgpAgree {
  import opened ArgpTree
  import opened Sequences
  import Parse = ArgpParse
  import opened ArgpHelp

  // ----- Each letter is shown under one entry -----

  /** Some option of entry i, number k, owns letter c. */
  predicate Owns(ls: seq<Listed>, i: nat, k: nat, c: int)
  {
    i < |ls| && k < |ls[i].opts| && ls[i].opts[k].key == c && Own(ls, i, k)
  }

  lemma {:induction false} LettersHit(opts: seq<Opt>, c: int) returns (k: nat)
    requires c in Letters(opts)
    ensures k < |opts| && IsShort(opts[k]) && opts[k].key == c && c !in Letters(opts[..k])
    decreases |opts|
  {
    var n := |opts| - 1;
    if c in Letters(opts[..n]) {
      k := LettersHit(opts[..n], c);
      assert opts[..n][..k] == opts[..k];
    } else {
      k := n;
    }
  }

  lemma {:induction false} AllLettersHit(ls: seq<Listed>, c: int) returns (i: nat)
    requires c in AllLetters(ls)
    ensures i < |ls| && c in Letters(ls[i].opts) && c !in AllLetters(ls[..i])
    decreases |ls|
  {
    var n := |ls| - 1;
    if c in AllLetters(ls[..n]) {
      i := AllLettersHit(ls[..n], c);
      assert ls[..n][..i] == ls[..i];
    } else {
      i := n;
    }
  }

  /** Every letter in the tables is owned by an option. */
  lemma OwnerExists(ls: seq<Listed>, c: int) returns (i: nat, k: nat)
    requires c in AllLetters(ls)
    ensures Owns(ls, i, k, c)
  {
    i := AllLettersHit(ls, c);
    k := LettersHit(ls[i].opts, c);
  }

  lemma LetterAt(opts: seq<Opt>, k: nat, n: nat)
    requires k < n <= |opts| && IsShort(opts[k])
    ensures opts[k].key in Letters(opts[..n])
    decreases n
  {
    assert opts[..n][..n - 1] == opts[..n - 1];
    if k < n - 1 { LetterAt(opts, k, n - 1); }
  }

  lemma LettersAt(ls: seq<Listed>, i: nat, n: nat, c: int)
    requires i < n <= |ls| && c in Letters(ls[i].opts)
    ensures c in AllLetters(ls[..n])
    decreases n
  {
    assert ls[..n][..n - 1] == ls[..n - 1];
    if i < n - 1 { LettersAt(ls, i, n - 1, c); }
  }

  /** No letter is owned twice. */
  lemma OwnerUnique(ls: seq<Listed>, i: nat, k: nat, j: nat, l: nat, c: int)
    requires Owns(ls, i, k, c) && Owns(ls, j, l, c)
    ensures i == j && k == l
  {
    OwnerFirst(ls, i, k, j, l, c);
    OwnerFirst(ls, j, l, i, k, c);
  }

  lemma OwnerFirst(ls: seq<Listed>, i: nat, k: nat, j: nat, l: nat, c: int)
    requires Owns(ls, i, k, c) && Owns(ls, j, l, c)
    ensures i <= j && (i == j ==> k <= l)
  {
    var opts := ls[j].opts;
    assert opts[..|opts|] == opts;
    LetterAt(opts, l, |opts|);
    if j < i {
      LettersAt(ls, j, i, c);
    } else if j == i && l < k {
      LetterAt(opts, l, k);
    }
  }

  /** ShortIterate shows exactly the visible options that own their letters. */
  lemma {:induction false} ShownOwns(ls: seq<Listed>, i: nat, n: nat, k: nat)
    requires i < |ls| && n <= |ls[i].opts|
    ensures k in Shown(ls, i, n) <==> k < n && Own(ls, i, k) && !ls[i].opts[k].hidden
  {
    hide Own;
    if n > 0 {
      ShownOwns(ls, i, n - 1, k);
    }
  }

  // ----- The table an entry is from -----

  /** The letters of each table, as help sees them. */
  function HelpKeys(tables: seq<Argp>): (lists: seq<seq<int>>)
    ensures |lists| == |tables| && forall i :: 0 <= i < |lists| ==> lists[i] == Letters(OptionsOf(tables[i]))
  {
    seq(|tables|, i requires 0 <= i < |tables| => Letters(OptionsOf(tables[i])))
  }

  lemma {:induction false} SplitLetters(a: Argp, opts: seq<Opt>)
    ensures AllLetters(Split(a, opts)) == Letters(opts)
    decreases |opts|
  {
    hide *;
    if opts == [] {
      SplitNothing(a, opts);
    } else {
      var opts', o := opts[..|opts| - 1], opts[|opts| - 1];
      SplitLetters(a, opts');
      SplitMore(a, opts', o);
      LettersSnoc(opts', o);
      assert opts == opts' + [o];
    }
  }

  lemma SplitNothing(a: Argp, opts: seq<Opt>)
    requires opts == []
    ensures AllLetters(Split(a, opts)) == Letters(opts)
  {
  }

  lemma SplitMore(a: Argp, opts: seq<Opt>, o: Opt)
    ensures AllLetters(Split(a, opts + [o])) == AllLetters(Split(a, opts)) + Letters([o])
  {
    var es := Split(a, opts);
    assert (opts + [o])[..|opts|] == opts;
    if o.alias && es != [] {
      var fs, last := es[..|es| - 1], es[|es| - 1];
      assert Split(a, opts + [o]) == fs + [Listed(a, last.opts + [o])];
      assert es == fs + [last];
      hide Split;
      AllLettersSnoc(fs, last);
      AllLettersSnoc(fs, Listed(a, last.opts + [o]));
      LettersSnoc(last.opts, o);
      Assoc(AllLetters(fs), Letters(last.opts), Letters([o]));
    } else {
      assert Split(a, opts + [o]) == es + [Listed(a, [o])];
      hide Split;
      AllLettersSnoc(es, Listed(a, [o]));
    }
  }

  /** Which table each entry is from. */
  function EntryTables(tables: seq<Argp>): seq<nat>
  {
    if tables == [] then [] else
      var n := |tables| - 1;
      EntryTables(tables[..n]) + seq(|TableEntries(tables[n])|, _ => n)
  }

  lemma EntryTablesSnoc(tables: seq<Argp>, a: Argp)
    ensures EntryTables(tables + [a]) == EntryTables(tables) + seq(|TableEntries(a)|, _ => |tables|)
  {
    assert (tables + [a])[..|tables|] == tables;
  }

  /** Entry i is made from table EntryTables[i]. */
  lemma {:induction false} EntryFrom(tables: seq<Argp>)
    ensures |AllEntries(tables)| == |EntryTables(tables)|
    ensures forall i :: 0 <= i < |EntryTables(tables)| ==>
      EntryTables(tables)[i] < |tables| && AllEntries(tables)[i].argp == tables[EntryTables(tables)[i]]
  {
    if tables != [] {
      var ts, a := tables[..|tables| - 1], tables[|tables| - 1];
      EntryFrom(ts);
      hide Split;
      forall i | 0 <= i < |TableEntries(a)|
        ensures TableEntries(a)[i].argp == a
      {
        SplitFrom(a, OptionsOf(a), i);
      }
    }
  }

  lemma {:induction false} SplitFrom(a: Argp, opts: seq<Opt>, i: nat)
    requires i < |Split(a, opts)|
    ensures Split(a, opts)[i].argp == a
    decreases |opts|
  {
    var n := |opts| - 1;
    var es := Split(a, opts[..n]);
    if i < |es| {
      SplitFrom(a, opts[..n], i);
    }
  }

  lemma FirstHelpSnoc(tables: seq<Argp>, a: Argp, c: int)
    ensures var k := FirstWith(HelpKeys(tables), c);
      FirstWith(HelpKeys(tables + [a]), c) ==
      if k.Some? then k else if c in Letters(OptionsOf(a)) then Some(|tables|) else None
  {
    FirstWithMore(HelpKeys(tables), Letters(OptionsOf(a)), c);
    hide FirstWith;
    hide Letters;
    assert HelpKeys(tables + [a]) == HelpKeys(tables) + [Letters(OptionsOf(a))];
  }

  /** The entry that owns a letter is from the first table to have the letter, by its place in the tree. */
  ghost predicate OwnersTable(tables: seq<Argp>, c: int)
  {
    var ls, t := AllEntries(tables), FirstWith(HelpKeys(tables), c);
    && (t.Some? <==> c in AllLetters(ls))
    && |EntryTables(tables)| == |ls|
    && forall i: nat, k: nat :: Owns(ls, i, k, c) ==> t.Some? && EntryTables(tables)[i] == t.value
  }

  lemma {:induction false} OwnerTable(tables: seq<Argp>, c: int)
    ensures OwnersTable(tables, c)
    decreases |tables|
  {
    if tables == [] {
      assert forall i: nat, k: nat :: !Owns(AllEntries(tables), i, k, c);
    } else {
      var ts, a := tables[..|tables| - 1], tables[|tables| - 1];
      assert tables == ts + [a];
      OwnerTable(ts, c);
      OneTableMore(ts, a, c);
    }
  }

  lemma {:induction false} OneTableMore(ts: seq<Argp>, a: Argp, c: int)
    requires OwnersTable(ts, c)
    ensures OwnersTable(ts + [a], c)
  {
    var ls, ms := AllEntries(ts), TableEntries(a);
    SplitLetters(a, OptionsOf(a));
    AllEntriesSnoc(ts, a);
    AllLettersAppend(ls, ms);
    FirstHelpSnoc(ts, a, c);
    EntryTablesSnoc(ts, a);
    hide EntryTables;
    hide AllEntries;
    hide AllLetters;
    hide Split;
    hide FirstWith;
    hide Own;
    var t := FirstWith(HelpKeys(ts + [a]), c);
    forall i: nat, k: nat | Owns(ls + ms, i, k, c)
      ensures t.Some? && EntryTables(ts + [a])[i] == t.value
    {
      if i < |ls| {
        OwnsPrefix(ls, ms, i, k, c);
        assert Owns(ls, i, k, c);
      } else {
        OwnsLater(ls, ms, i, k, c);
        assert (ls + ms)[i] == ms[i - |ls|];
        LetterHere(ms, i - |ls|, k, c);
      }
    }
  }

  lemma OwnsPrefix(ls: seq<Listed>, ms: seq<Listed>, i: nat, k: nat, c: int)
    requires i < |ls| && Owns(ls + ms, i, k, c)
    ensures Owns(ls, i, k, c)
  {
    assert (ls + ms)[..i] == ls[..i];
  }

  lemma OwnsLater(ls: seq<Listed>, ms: seq<Listed>, i: nat, k: nat, c: int)
    requires |ls| <= i && Owns(ls + ms, i, k, c)
    ensures c !in AllLetters(ls) && IsShort((ls + ms)[i].opts[k])
  {
    assert (ls + ms)[..i][..|ls|] == ls;
    AllLettersPrefix((ls + ms)[..i], |ls|);
    hide AllLetters;
  }

  lemma LetterHere(ms: seq<Listed>, i: nat, k: nat, c: int)
    requires i < |ms| && k < |ms[i].opts| && IsShort(ms[i].opts[k]) && ms[i].opts[k].key == c
    ensures c in AllLetters(ms)
  {
    var opts := ms[i].opts;
    assert opts[..|opts|] == opts && ms[..|ms|] == ms;
    LetterAt(opts, k, |opts|);
    LettersAt(ms, i, |ms|, c);
  }

  // ----- The comparison -----

  lemma {:induction false} UsableLetters(opts: seq<Opt>, n: nat, c: int)
    requires n <= |opts|
    ensures c in Parse.ShortKeys(opts, n) ==> c in Letters(opts[..n])
  {
    hide Parse.RealAt;
    if n > 0 {
      UsableLetters(opts, n - 1, c);
      assert opts[..n][..n - 1] == opts[..n - 1];
    }
  }

  lemma {:induction false} AllUsable(opts: seq<Opt>, n: nat, c: int)
    requires n <= |opts| && forall i :: 0 <= i < n && IsShort(opts[i]) ==> Parse.Usable(opts, i)
    ensures c in Letters(opts[..n]) ==> c in Parse.ShortKeys(opts, n)
  {
    if n > 0 {
      AllUsable(opts, n - 1, c);
      assert opts[..n][..n - 1] == opts[..n - 1];
      hide Parse.Usable;
    }
  }

  lemma ParserKeysShown(a: Argp, c: int)
    ensures c in Parse.ParseKeys(a) ==> c in Letters(OptionsOf(a))
    ensures NoTextAliases(a) ==> (c in Letters(OptionsOf(a)) ==> c in Parse.ParseKeys(a))
  {
    var opts := OptionsOf(a);
    assert opts[..|opts|] == opts;
    UsableLetters(opts, |opts|, c);
    if NoTextAliases(a) { AllUsable(opts, |opts|, c); }
  }

  /** No option with a letter is an alias of an entry that is mere text. */
  predicate NoTextAliases(a: Argp)
  {
    forall i :: 0 <= i < |OptionsOf(a)| && IsShort(OptionsOf(a)[i]) ==> Parse.Usable(OptionsOf(a), i)
  }

  /** Help and parser agree on c: no table has it for either, or both find the one at the same place. */
  predicate Agree(tables: seq<Argp>, c: int)
  {
    var t, u := FirstWith(HelpKeys(tables), c), FirstWith(Parse.KeysOf(tables), c);
    if t.None? then u.None? else u == t
  }

  /** They agree exactly if the first table with a letter c also offers it to the parser, that is, not just
      as the alias of a text. */
  lemma AgreeExactly(tables: seq<Argp>, c: int)
    ensures var t := FirstWith(HelpKeys(tables), c);
      Agree(tables, c) <==> (t.Some? ==> c in Parse.ParseKeys(tables[t.value]))
  {
    hide FirstWith;
    hide Letters;
    forall i | 0 <= i < |tables|
      ensures c in Parse.KeysOf(tables)[i] ==> c in HelpKeys(tables)[i]
    {
      ParserKeysShown(tables[i], c);
    }
    hide Parse.ParseKeys;
  }

  /** A tree without short aliases of texts: help and parser agree on every letter. */
  lemma AgreeAlways(tables: seq<Argp>, c: int)
    requires forall i :: 0 <= i < |tables| ==> NoTextAliases(tables[i])
    ensures Agree(tables, c)
  {
    AgreeExactly(tables, c);
    var t := FirstWith(HelpKeys(tables), c);
    if t.Some? {
      ParserKeysShown(tables[t.value], c);
    }
  }

  /** The condition is needed: here help shows -x, which the parser does not know. */
  lemma Disagree()
    ensures var text := Opt(Some("Notes:"), 0, false, false, false, false, true, 0);
            var x := Opt(None, 'x' as int, false, false, false, true, false, 0);
            !Agree(Preorder(Argp(Some([text, x]), Some(1), [])), 'x' as int)
  {
    var text := Opt(Some("Notes:"), 0, false, false, false, false, true, 0);
    var x := Opt(None, 'x' as int, false, false, false, true, false, 0);
    var a := Argp(Some([text, x]), Some(1), []);
    var opts := OptionsOf(a);
    assert opts[..1] == [text] && opts[..0] == [] && [text][..0] == [];
    assert 'x' as int in Letters(opts);
    assert Parse.RealAt(opts, 1) == 0;
    assert Parse.ShortKeys(opts, 0) == [];
    assert Parse.ShortKeys(opts, 1) == [];
    assert Parse.ShortKeys(opts, 2) == [];
    assert Preorder(a) == [a];
    var t := FirstWith(HelpKeys([a]), 'x' as int);
    assert HelpKeys([a])[0] == Letters(opts);
    AgreeExactly([a], 'x' as int);
  }

  /** Help and parser, for every tree and every code that getopt can return: a letter that some table has is
      owned by one option of one entry, and that entry is from the table whose group the parser picks if and
      only if the first table with the letter also offers it to the parser. */
  lemma HelpAndParser(a: Argp, so: seq<int>, gs: seq<Parse.Group>, inOrder: bool, noArgs: bool, c: int, i: nat, k: nat)
    requires Parse.Converted(so, gs, Parse.Prefix(inOrder, noArgs), [], Preorder(a))
    requires c != ':' as int && c !in Parse.Prefix(inOrder, noArgs)
    requires Owns(AllEntries(Preorder(a)), i, k, c)
    ensures var t, g := FirstWith(HelpKeys(Preorder(a)), c), Parse.GroupFor(so, gs, c);
      && t.Some? && |EntryTables(Preorder(a))| == |AllEntries(Preorder(a))| && EntryTables(Preorder(a))[i] == t.value
      && (g.Some? ==> g.value < |Parse.GroupTables(Preorder(a))|)
      && ((g.Some? && Parse.GroupTables(Preorder(a))[g.value] == EntryTables(Preorder(a))[i])
          <==> c in Parse.ParseKeys(Preorder(a)[t.value]))
  {
    var tables := Preorder(a);
    OwnerTable(tables, c);
    AgreeExactly(tables, c);
    Parse.FirstDeclarerParses(so, gs, Some(a), inOrder, noArgs, c);
    hide Owns;
    hide Parse.GroupFor;
    hide Parse.Converted;
    hide Parse.GroupTables;
    hide EntryTables;
    hide Preorder;
    hide AllEntries;
    hide FirstWith;
  }
}
