/** The list of options that help shows, argp/argp-help.c:333-342, 421-491, 539-562 and 819-900. */
module ArgpHelp {
  import opened ArgpTree
  import opened Sequences

  // ----- Letters, each once -----

  /** The letters of s, without repetitions, in order of first appearance. */
  function Dedup(s: seq<int>): seq<int>
  {
    if s == [] then [] else
      var t, c := s[..|s| - 1], s[|s| - 1];
      if c in t then Dedup(t) else Dedup(t) + [c]
  }

  lemma DedupSnoc(s: seq<int>, c: int)
    ensures Dedup(s + [c]) == if c in s then Dedup(s) else Dedup(s) + [c]
  {
    assert (s + [c])[..|s|] == s;
  }

  lemma {:induction false} DedupIn(s: seq<int>, c: int)
    ensures c in Dedup(s) <==> c in s
  {
    if s != [] {
      var t, d := s[..|s| - 1], s[|s| - 1];
      DedupIn(t, c);
      DedupIn(t, d);
      assert s == t + [d];
    }
  }

  lemma {:induction false} DedupPrefix(s: seq<int>, t: seq<int>)
    ensures |Dedup(s)| <= |Dedup(s + t)| && Dedup(s + t)[..|Dedup(s)|] == Dedup(s)
    decreases |t|
  {
    if t == [] {
      assert s + t == s;
    } else {
      var t', c := t[..|t| - 1], t[|t| - 1];
      DedupPrefix(s, t');
      assert s + t == (s + t') + [c];
      DedupSnoc(s + t', c);
    }
  }

  lemma {:induction false} DedupDistinct(s: seq<int>, i: nat, j: nat)
    requires i < j < |Dedup(s)|
    ensures Dedup(s)[i] != Dedup(s)[j]
  {
    var t, c := s[..|s| - 1], s[|s| - 1];
    assert s == t + [c];
    DedupSnoc(t, c);
    if j < |Dedup(t)| {
      DedupDistinct(t, i, j);
    } else {
      DedupIn(t, c);
    }
  }

  /** At the place where the letters of s end, s + t has a letter c exactly if c is the next new one. */
  lemma NextLetter(s: seq<int>, c: int, t: seq<int>)
    ensures var d, n := Dedup(s + [c] + t), |Dedup(s)|; (n < |d| && d[n] == c) <==> c !in s
  {
    var d, n := Dedup(s + [c] + t), |Dedup(s)|;
    DedupSnoc(s, c);
    DedupPrefix(s + [c], t);
    if c in s {
      DedupIn(s, c);
      Assoc(s, [c], t);
      DedupPrefix(s, [c] + t);
      if n < |d| { OldLetter(s + [c] + t, n, c); }
    } else {
      assert d[..n + 1][n] == c;
    }
  }

  lemma OldLetter(x: seq<int>, n: nat, c: int)
    requires n < |Dedup(x)| && c in Dedup(x)[..n]
    ensures Dedup(x)[n] != c
  {
    var i :| 0 <= i < n && Dedup(x)[..n][i] == c;
    DedupDistinct(x, i, n);
  }

  // ----- Entries -----

  /** An option with its aliases, and the table it is from. */
  datatype Listed = Listed(argp: Argp, opts: seq<Opt>)

  /** struct hol_entry: `start` is its pointer into the string of letters. */
  datatype Entry = Entry(listed: Listed, start: nat)

  /** The letters of some options, shadowed ones too. */
  function Letters(opts: seq<Opt>): seq<int>
  {
    if opts == [] then [] else
      var o := opts[|opts| - 1];
      Letters(opts[..|opts| - 1]) + if IsShort(o) then [o.key] else []
  }

  function AllLetters(es: seq<Listed>): seq<int>
  {
    if es == [] then [] else AllLetters(es[..|es| - 1]) + Letters(es[|es| - 1].opts)
  }

  /** A table's entries: each option that is not an alias, with the aliases that follow it. */
  function Split(a: Argp, opts: seq<Opt>): seq<Listed>
  {
    if opts == [] then [] else
      var n := |opts| - 1;
      var es := Split(a, opts[..n]);
      if opts[n].alias && es != [] then es[..|es| - 1] + [Listed(a, es[|es| - 1].opts + [opts[n]])]
      else es + [Listed(a, [opts[n]])]
  }

  /** The options of all entries, in order. */
  function AllOptions(es: seq<Listed>): seq<Opt>
  {
    if es == [] then [] else AllOptions(es[..|es| - 1]) + es[|es| - 1].opts
  }

  /** The entries hold the table's options in order. */
  lemma {:induction false} SplitOptions(a: Argp, opts: seq<Opt>)
    ensures AllOptions(Split(a, opts)) == opts
    decreases |opts|
  {
    if opts != [] {
      var n := |opts| - 1;
      var es := Split(a, opts[..n]);
      SplitOptions(a, opts[..n]);
      assert opts == opts[..n] + [opts[n]];
      if opts[n].alias && es != [] {
        var front, last := es[..|es| - 1], es[|es| - 1];
        OptionsSnoc(front, last);
        OptionsSnoc(front, Listed(a, last.opts + [opts[n]]));
        assert es == front + [last];
        Assoc(AllOptions(front), last.opts, [opts[n]]);
      } else {
        OptionsSnoc(es, Listed(a, [opts[n]]));
      }
      hide AllOptions;
    }
  }

  lemma OptionsSnoc(es: seq<Listed>, e: Listed)
    ensures AllOptions(es + [e]) == AllOptions(es) + e.opts
  {
    assert (es + [e])[..|es|] == es;
  }

  /** And each begins with one that is not an alias and goes on with aliases. */
  lemma {:induction false} SplitParts(a: Argp, opts: seq<Opt>, i: nat)
    requires (opts != [] ==> !opts[0].alias) && i < |Split(a, opts)|
    ensures var e := Split(a, opts)[i];
            e.argp == a && e.opts != [] && !e.opts[0].alias && forall k :: 0 < k < |e.opts| ==> e.opts[k].alias
    decreases |opts|
  {
    var n := |opts| - 1;
    var es := Split(a, opts[..n]);
    if i < |es| {
      SplitParts(a, opts[..n], i);
    }
  }

  /** make_hol insists on this. */
  predicate StartsReal(a: Argp) { OptionsOf(a) != [] ==> !OptionsOf(a)[0].alias }

  function TableEntries(a: Argp): seq<Listed> { Split(a, OptionsOf(a)) }

  function AllEntries(tables: seq<Argp>): seq<Listed>
  {
    if tables == [] then [] else AllEntries(tables[..|tables| - 1]) + TableEntries(tables[|tables| - 1])
  }

  // ----- What a hol looks like -----

  function Listing(es: seq<Entry>): (ls: seq<Listed>)
    ensures |ls| == |es| && forall i :: 0 <= i < |es| ==> ls[i] == es[i].listed
  {
    seq(|es|, i requires 0 <= i < |es| => es[i].listed)
  }

  /** The string holds every letter once, and each entry's pointer leads to the first letter that is its own. */
  ghost predicate Canonical(es: seq<Entry>, so: seq<int>)
  {
    && so == Dedup(AllLetters(Listing(es)))
    && forall i :: 0 <= i < |es| ==> es[i].start == |Dedup(AllLetters(Listing(es)[..i]))|
  }

  /** find_char. */
  method FindChar(c: int, s: seq<int>) returns (found: bool)
    ensures found <==> c in s
  {
    for i := 0 to |s|
      invariant c !in s[..i]
    {
      if s[i] == c { return true; }
    }
    return false;
  }

  /** Lines 480-482: an option's letter is added unless it is there already. */
  method AddLetter(letters: seq<int>, o: Opt, ghost seen: seq<int>) returns (letters': seq<int>)
    requires letters == Dedup(seen)
    ensures letters' == Dedup(seen + Letters([o]))
  {
    OneLetter(o);
    letters' := letters;
    if IsShort(o) {
      var found := FindChar(o.key, letters);
      DedupSnoc(seen, o.key);
      DedupIn(seen, o.key);
      if !found {
        letters' := letters + [o.key];
      }
    } else {
      assert seen + [] == seen;
    }
  }

  lemma OneLetter(o: Opt)
    ensures Letters([o]) == if IsShort(o) then [o.key] else []
  {
    assert [o][..0] == [];
  }

  lemma LettersSnoc(opts: seq<Opt>, o: Opt)
    ensures Letters(opts + [o]) == Letters(opts) + Letters([o])
  {
    OneLetter(o);
    assert (opts + [o])[..|opts|] == opts;
  }

  lemma AllLettersSnoc(es: seq<Listed>, e: Listed)
    ensures AllLetters(es + [e]) == AllLetters(es) + Letters(e.opts)
  {
    assert (es + [e])[..|es|] == es;
  }

  lemma SplitFirst(a: Argp, opts: seq<Opt>, o: nat)
    requires o < |opts| && !opts[o].alias
    ensures opts[o..o + 1] == [opts[o]]
    ensures Split(a, opts[..o + 1]) == Split(a, opts[..o]) + [Listed(a, opts[o..o + 1])]
  {
    assert opts[..o + 1][..o] == opts[..o];
  }

  lemma SplitAlias(a: Argp, opts: seq<Opt>, before: seq<Listed>, first: nat, o: nat)
    requires first < o < |opts| && opts[o].alias && Split(a, opts[..o]) == before + [Listed(a, opts[first..o])]
    ensures opts[first..o + 1] == opts[first..o] + [opts[o]]
    ensures Split(a, opts[..o + 1]) == before + [Listed(a, opts[first..o + 1])]
  {
    SplitStep(a, opts, o);
    DropLast(before, Listed(a, opts[first..o]));
    hide Split;
  }

  lemma SplitStep(a: Argp, opts: seq<Opt>, o: nat)
    requires o < |opts|
    ensures var es := Split(a, opts[..o]);
      Split(a, opts[..o + 1]) ==
      if opts[o].alias && es != [] then es[..|es| - 1] + [Listed(a, es[|es| - 1].opts + [opts[o]])]
      else es + [Listed(a, [opts[o]])]
  {
    assert opts[..o + 1][..o] == opts[..o];
  }

  lemma DropLast<T>(s: seq<T>, x: T)
    ensures (s + [x])[..|s|] == s
  {
  }

  /** One entry more keeps the list in order. */
  lemma CanonicalSnoc(es: seq<Entry>, so: seq<int>, l: Listed, so': seq<int>)
    requires Canonical(es, so) && so' == Dedup(AllLetters(Listing(es)) + Letters(l.opts))
    ensures Canonical(es + [Entry(l, |so|)], so') && Listing(es + [Entry(l, |so|)]) == Listing(es) + [l]
  {
    var es' := es + [Entry(l, |so|)];
    AllLettersSnoc(Listing(es), l);
    hide Dedup;
    hide AllLetters;
    assert Listing(es') == Listing(es) + [l];
    forall i | 0 <= i < |es'|
      ensures es'[i].start == |Dedup(AllLetters(Listing(es')[..i]))|
    {
      assert Listing(es')[..i] == Listing(es)[..i];
      if i == |es| { assert Listing(es)[..i] == Listing(es); }
    }
  }

  lemma {:induction false} LettersPrefix(opts: seq<Opt>, k: nat)
    requires k <= |opts|
    ensures Letters(opts[..k]) <= Letters(opts)
    decreases |opts|
  {
    if k == |opts| {
      assert opts[..k] == opts;
    } else {
      assert opts[..|opts| - 1][..k] == opts[..k];
      LettersPrefix(opts[..|opts| - 1], k);
    }
  }

  lemma {:induction false} AllLettersPrefix(es: seq<Listed>, k: nat)
    requires k <= |es|
    ensures AllLetters(es[..k]) <= AllLetters(es)
    decreases |es|
  {
    if k == |es| {
      assert es[..k] == es;
    } else {
      assert es[..|es| - 1][..k] == es[..k];
      AllLettersPrefix(es[..|es| - 1], k);
    }
  }

  lemma NextLetterOf(s: seq<int>, c: int, x: seq<int>)
    requires s + [c] <= x
    ensures var d, n := Dedup(x), |Dedup(s)|; (n < |d| && d[n] == c) <==> c !in s
  {
    assert x == s + [c] + x[|s| + 1..];
    NextLetter(s, c, x[|s| + 1..]);
  }

  /** `merged` holds the letters of h and of those of `more` seen so far; the next unseen one is at place n. */
  ghost predicate Merging(merged: seq<int>, n: nat, h: seq<int>, seen: seq<int>)
  {
    merged == Dedup(h + seen) && n == |Dedup(seen)|
  }

  lemma MergeLetter(merged: seq<int>, n: nat, h: seq<int>, seen: seq<int>, c: int)
    requires Merging(merged, n, h, seen)
    ensures c in seen ==> Merging(merged, n, h, seen + [c])
    ensures c !in seen ==> Merging(if c in Dedup(h) then merged else merged + [c], n + 1, h, seen + [c])
  {
    assert h + (seen + [c]) == (h + seen) + [c];
    DedupSnoc(h + seen, c);
    DedupSnoc(seen, c);
    DedupIn(h, c);
  }

  class Hol {
    var entries: seq<Entry>
    var so: seq<int>

    /** make_hol. */
    constructor (a: Argp)
      requires StartsReal(a)
      ensures Listing(entries) == TableEntries(a) && Canonical(entries, so)
    {
      var es, letters := MakeHol(a);
      entries, so := es, letters;
    }

    /** hol_append: the entries of `more` follow, without the letters that are taken. */
    method Append(more: Hol)
      requires more != this && Canonical(entries, so) && Canonical(more.entries, more.so)
      modifies this, more
      ensures Canonical(entries, so) && Listing(entries) == old(Listing(entries)) + old(Listing(more.entries))
    {
      if |more.entries| > 0 {
        if |entries| == 0 {
          assert Listing(more.entries) == [] + Listing(more.entries);
          entries, so := more.entries, more.so;
          more.entries := [];
        } else {
          entries, so := Merge(entries, so, more.entries, more.so);
        }
      }
    }
  }

  /** Lines 842-899. */
  method Merge(hol: seq<Entry>, so: seq<int>, more: seq<Entry>, moreSo: seq<int>)
    returns (es: seq<Entry>, letters: seq<int>)
    requires Canonical(hol, so) && Canonical(more, moreSo)
    ensures Canonical(es, letters) && Listing(es) == Listing(hol) + Listing(more)
  {
    ghost var h, m := AllLetters(Listing(hol)), Listing(more);
    es, letters := hol, so;
    var at := 0;
    MergeStart(hol, so, m);
    hide *;
    for i := 0 to |more|
      invariant Canonical(es, letters) && Listing(es) == Listing(hol) + m[..i]
      invariant Merging(letters, at, h, AllLetters(m[..i]))
    {
      MergeReady(more, moreSo, i);
      var start := |letters|;
      ghost var before := letters;
      letters, at := MergeEntry(letters, so, moreSo, at, more[i].listed.opts, h, AllLetters(m[..i]), AllLetters(m));
      MergeTurn(es, before, hol, m, i, letters, at);
      es := es + [Entry(more[i].listed, start)];
    }
    assert m[..|more|] == m;
  }

  lemma {:induction false} AllLettersAppend(es: seq<Listed>, fs: seq<Listed>)
    ensures AllLetters(es + fs) == AllLetters(es) + AllLetters(fs)
    decreases |fs|
  {
    hide *;
    if fs == [] {
      NoLetters(es, fs);
    } else {
      var gs, e := fs[..|fs| - 1], fs[|fs| - 1];
      AllLettersAppend(es, gs);
      assert fs == gs + [e];
      Assoc(es, gs, [e]);
      assert es + fs == (es + gs) + [e];
      AllLettersSnoc(gs, e);
      AllLettersSnoc(es + gs, e);
      Assoc(AllLetters(es), AllLetters(gs), Letters(e.opts));
    }
  }

  lemma NoLetters(es: seq<Listed>, fs: seq<Listed>)
    requires fs == []
    ensures AllLetters(es + fs) == AllLetters(es) + AllLetters(fs)
  {
    assert es + fs == es;
  }

  lemma MergeReady(more: seq<Entry>, moreSo: seq<int>, i: nat)
    requires Canonical(more, moreSo) && i < |more|
    ensures moreSo == Dedup(AllLetters(Listing(more)))
    ensures AllLetters(Listing(more)[..i + 1]) == AllLetters(Listing(more)[..i]) + Letters(more[i].listed.opts)
    ensures AllLetters(Listing(more)[..i]) + Letters(more[i].listed.opts) <= AllLetters(Listing(more))
  {
    var m := Listing(more);
    hide Dedup;
    hide Letters;
    hide AllLetters;
    assert m[..i + 1] == m[..i] + [m[i]];
    AllLettersSnoc(m[..i], m[i]);
    AllLettersPrefix(m, i + 1);
  }

  lemma MergeTurn(es: seq<Entry>, letters: seq<int>, hol: seq<Entry>, m: seq<Listed>, i: nat, letters': seq<int>,
                  at: nat)
    requires i < |m| && Canonical(es, letters) && Listing(es) == Listing(hol) + m[..i]
    requires Merging(letters', at, AllLetters(Listing(hol)), AllLetters(m[..i]) + Letters(m[i].opts))
    ensures var es' := es + [Entry(m[i], |letters|)];
            Canonical(es', letters') && Listing(es') == Listing(hol) + m[..i + 1]
  {
    AllLettersAppend(Listing(hol), m[..i]);
    Assoc(AllLetters(Listing(hol)), AllLetters(m[..i]), Letters(m[i].opts));
    Assoc(Listing(hol), m[..i], [m[i]]);
    assert m[..i + 1] == m[..i] + [m[i]];
    CanonicalSnoc(es, letters, m[i], letters');
    hide AllLetters;
    hide Dedup;
    hide Canonical;
    hide Listing;
  }

  lemma MergeStart(hol: seq<Entry>, so: seq<int>, m: seq<Listed>)
    requires Canonical(hol, so)
    ensures Merging(so, 0, AllLetters(Listing(hol)), AllLetters(m[..0])) && Listing(hol) == Listing(hol) + m[..0]
    ensures so == Dedup(AllLetters(Listing(hol)))
  {
    assert AllLetters(Listing(hol)) + [] == AllLetters(Listing(hol));
  }

  /** Lines 880-896: the letters of one entry. */
  method MergeEntry(letters: seq<int>, so: seq<int>, moreSo: seq<int>, at: nat, opts: seq<Opt>,
                    ghost h: seq<int>, ghost seen: seq<int>, ghost all: seq<int>) returns (letters': seq<int>, at': nat)
    requires so == Dedup(h) && moreSo == Dedup(all) && Merging(letters, at, h, seen) && seen + Letters(opts) <= all
    ensures Merging(letters', at', h, seen + Letters(opts))
  {
    letters', at' := letters, at;
    assert seen + Letters(opts[..0]) == seen;
    hide *;
    for k := 0 to |opts|
      invariant Merging(letters', at', h, seen + Letters(opts[..k]))
    {
      ghost var s := seen + Letters(opts[..k]);
      OptionNext(opts, k, seen, all);
      var opt := opts[k];
      if IsShort(opt) {
        MergeLetter(letters', at', h, s, opt.key);
      }
      if IsShort(opt) && at' < |moreSo| && moreSo[at'] == opt.key {
        var found := FindChar(opt.key, so);
        if !found {
          letters' := letters' + [opt.key];
        }
        at' := at' + 1;
      }
    }
    assert opts[..|opts|] == opts;
  }

  lemma OptionNext(opts: seq<Opt>, k: nat, seen: seq<int>, all: seq<int>)
    requires k < |opts| && seen + Letters(opts) <= all
    ensures var s, c := seen + Letters(opts[..k]), opts[k].key;
      && (IsShort(opts[k]) ==> seen + Letters(opts[..k + 1]) == s + [c])
      && (!IsShort(opts[k]) ==> seen + Letters(opts[..k + 1]) == s)
      && (IsShort(opts[k]) ==> ((|Dedup(s)| < |Dedup(all)| && Dedup(all)[|Dedup(s)|] == c) <==> c !in s))
  {
    var s, c := seen + Letters(opts[..k]), opts[k].key;
    assert opts[..k + 1][..k] == opts[..k];
    LettersPrefix(opts, k + 1);
    if IsShort(opts[k]) {
      assert s + [c] <= all;
      NextLetterOf(s, c, all);
    }
  }

  /** Lines 462-487. */
  method MakeHol(a: Argp) returns (es: seq<Entry>, letters: seq<int>)
    requires StartsReal(a)
    ensures Listing(es) == TableEntries(a) && Canonical(es, letters)
  {
    var opts, o := OptionsOf(a), 0;
    es, letters := [], [];
    assert opts[..0] == [] && opts[..|opts|] == opts;
    hide Split;
    hide Dedup;
    hide Canonical;
    while o < |opts|
      invariant 0 <= o <= |opts| && (o < |opts| ==> !opts[o].alias)
      invariant Listing(es) == Split(a, opts[..o]) && Canonical(es, letters)
    {
      var first := o;
      var letters';
      letters', o := OneEntry(a, opts, o, es, letters);
      CanonicalSnoc(es, letters, Listed(a, opts[first..o]), letters');
      es := es + [Entry(Listed(a, opts[first..o]), |letters|)];
      letters := letters';
    }
  }

  /** Lines 477-485: one option with the aliases that follow. */
  method OneEntry(a: Argp, opts: seq<Opt>, first: nat, ghost es: seq<Entry>, letters: seq<int>)
    returns (letters': seq<int>, o: nat)
    requires first < |opts| && !opts[first].alias && Listing(es) == Split(a, opts[..first]) && Canonical(es, letters)
    ensures first < o <= |opts| && (o < |opts| ==> !opts[o].alias)
    ensures letters' == Dedup(AllLetters(Listing(es)) + Letters(opts[first..o]))
    ensures Split(a, opts[..o]) == Listing(es) + [Listed(a, opts[first..o])]
  {
    ghost var before := Listing(es);
    EntryStart(a, opts, es, letters, first);
    hide *;
    letters' := AddLetter(letters, opts[first], AllLetters(before));
    o := first + 1;
    while o < |opts| && opts[o].alias
      invariant first < o <= |opts| && EntryAdded(a, opts, before, first, o, letters')
    {
      letters' := AddAlias(a, opts, before, first, o, letters');
      o := o + 1;
    }
    EntryDone(a, opts, before, first, o, letters');
  }

  method AddAlias(ghost a: Argp, opts: seq<Opt>, ghost before: seq<Listed>, ghost first: nat, o: nat, letters: seq<int>)
    returns (letters': seq<int>)
    requires o < |opts| && opts[o].alias && EntryAdded(a, opts, before, first, o, letters)
    ensures EntryAdded(a, opts, before, first, o + 1, letters')
  {
    EntryTurn(a, opts, before, first, o);
    hide EntrySoFar;
    hide Split;
    hide Letters;
    hide AllLetters;
    hide Dedup;
    ghost var seen := AllLetters(before);
    letters' := AddLetter(letters, opts[o], seen + Letters(opts[first..o]));
    Assoc(seen, Letters(opts[first..o]), Letters([opts[o]]));
  }

  /** The entry begun at `first` goes up to o. */
  ghost predicate EntrySoFar(a: Argp, opts: seq<Opt>, before: seq<Listed>, first: nat, o: nat)
  {
    first < o <= |opts| && Split(a, opts[..o]) == before + [Listed(a, opts[first..o])]
  }

  /** And its letters are in the string. */
  ghost predicate EntryAdded(a: Argp, opts: seq<Opt>, before: seq<Listed>, first: nat, o: nat, letters: seq<int>)
  {
    EntrySoFar(a, opts, before, first, o) && letters == Dedup(AllLetters(before) + Letters(opts[first..o]))
  }

  lemma EntryStart(a: Argp, opts: seq<Opt>, es: seq<Entry>, letters: seq<int>, first: nat)
    requires first < |opts| && !opts[first].alias && Listing(es) == Split(a, opts[..first]) && Canonical(es, letters)
    ensures letters == Dedup(AllLetters(Listing(es)))
    ensures EntryAdded(a, opts, Listing(es), first, first + 1, Dedup(AllLetters(Listing(es)) + Letters([opts[first]])))
  {
    SplitFirst(a, opts, first);
    assert opts[first..first + 1] == [opts[first]];
    hide Split;
  }

  lemma EntryTurn(a: Argp, opts: seq<Opt>, before: seq<Listed>, first: nat, o: nat)
    requires EntrySoFar(a, opts, before, first, o) && o < |opts| && opts[o].alias
    ensures EntrySoFar(a, opts, before, first, o + 1)
    ensures Letters(opts[first..o + 1]) == Letters(opts[first..o]) + Letters([opts[o]])
  {
    SplitAlias(a, opts, before, first, o);
    LettersSnoc(opts[first..o], opts[o]);
  }

  lemma EntryDone(a: Argp, opts: seq<Opt>, before: seq<Listed>, first: nat, o: nat, letters: seq<int>)
    requires EntryAdded(a, opts, before, first, o, letters)
    ensures first < o <= |opts| && letters == Dedup(AllLetters(before) + Letters(opts[first..o]))
    ensures Split(a, opts[..o]) == before + [Listed(a, opts[first..o])]
  {
  }

  // ----- The whole tree -----

  predicate AllStartReal(tables: seq<Argp>) { forall i :: 0 <= i < |tables| ==> StartsReal(tables[i]) }

  lemma AllEntriesSnoc(tables: seq<Argp>, a: Argp)
    ensures AllEntries(tables + [a]) == AllEntries(tables) + TableEntries(a)
  {
    assert (tables + [a])[..|tables|] == tables;
  }

  lemma {:induction false} AllEntriesAppend(s: seq<Argp>, t: seq<Argp>)
    ensures AllEntries(s + t) == AllEntries(s) + AllEntries(t)
    decreases |t|
  {
    hide *;
    if t == [] {
      NoEntries(s, t);
    } else {
      var t', a := t[..|t| - 1], t[|t| - 1];
      AllEntriesAppend(s, t');
      assert t == t' + [a];
      Assoc(s, t', [a]);
      assert s + t == (s + t') + [a];
      AllEntriesSnoc(t', a);
      AllEntriesSnoc(s + t', a);
      Assoc(AllEntries(s), AllEntries(t'), TableEntries(a));
    }
  }

  lemma NoEntries(s: seq<Argp>, t: seq<Argp>)
    requires t == []
    ensures AllEntries(s + t) == AllEntries(s) + AllEntries(t)
  {
    assert s + t == s;
  }

  /** argp_hol: every table's entries, in preorder. */
  method ArgpHol(a: Argp) returns (hol: Hol)
    requires AllStartReal(Preorder(a))
    ensures fresh(hol) && Canonical(hol.entries, hol.so) && Listing(hol.entries) == AllEntries(Preorder(a))
    decreases a
  {
    ghost var done := [a];
    RootEntries(a);
    hide *;
    hol := new Hol(a);
    for i := 0 to |a.children|
      invariant fresh(hol) && Canonical(hol.entries, hol.so)
      invariant done == [a] + PreorderAll(a.children[..i]) && Listing(hol.entries) == AllEntries(done)
    {
      ChildTables(a, i);
      var more := ArgpHol(a.children[i]);
      AllEntriesAppend(done, Preorder(a.children[i]));
      hol.Append(more);
      done := done + Preorder(a.children[i]);
    }
    assert a.children[..|a.children|] == a.children;
  }

  lemma {:induction false} RootEntries(a: Argp)
    requires AllStartReal(Preorder(a))
    ensures StartsReal(a) && AllEntries([a]) == TableEntries(a) && [a] == [a] + PreorderAll(a.children[..0])
    ensures Preorder(a) == [a] + PreorderAll(a.children)
  {
    assert [a][..0] == [] && [] + TableEntries(a) == TableEntries(a);
    assert StartsReal(Preorder(a)[0]);
  }

  lemma ChildTables(a: Argp, i: nat)
    requires i < |a.children|
    ensures [a] + PreorderAll(a.children[..i]) + Preorder(a.children[i]) == [a] + PreorderAll(a.children[..i + 1])
    ensures AllStartReal(Preorder(a)) ==> AllStartReal(Preorder(a.children[i]))
  {
    var cs := a.children;
    OneChild(a, i);
    hide *;
    Assoc([a], PreorderAll(cs[..i]), Preorder(cs[i]));
    PartStartsReal([a] + PreorderAll(cs[..i]), Preorder(cs[i]), PreorderAll(cs[i + 1..]));
    Assoc([a], PreorderAll(cs[..i + 1]), PreorderAll(cs[i + 1..]));
  }

  lemma {:induction false} OneChild(a: Argp, i: nat)
    requires i < |a.children|
    ensures var cs := a.children;
      && PreorderAll(cs[..i + 1]) == PreorderAll(cs[..i]) + Preorder(cs[i])
      && Preorder(a) == [a] + (PreorderAll(cs[..i + 1]) + PreorderAll(cs[i + 1..]))
  {
    var cs := a.children;
    assert PreorderAll([cs[i]]) == Preorder(cs[i]);
    hide PreorderAll;
    assert cs[..i + 1] == cs[..i] + [cs[i]];
    assert cs == cs[..i + 1] + cs[i + 1..];
    PreorderAppend(cs[..i], [cs[i]]);
    PreorderAppend(cs[..i + 1], cs[i + 1..]);
  }

  lemma PartStartsReal(s: seq<Argp>, t: seq<Argp>, u: seq<Argp>)
    ensures AllStartReal(s + t + u) ==> AllStartReal(t)
  {
    forall j | AllStartReal(s + t + u) && 0 <= j < |t|
      ensures StartsReal(t[j])
    {
      assert t[j] == (s + t + u)[|s| + j];
    }
  }

  // ----- Where an option is shown -----

  /** Option k of entry i is the first with its letter. */
  predicate Own(ls: seq<Listed>, i: nat, k: nat)
    requires i < |ls| && k < |ls[i].opts|
  {
    var o := ls[i].opts[k];
    IsShort(o) && o.key !in AllLetters(ls[..i]) + Letters(ls[i].opts[..k])
  }

  /** The visible options of entry i that are the first with their letter, among the first k. */
  function Shown(ls: seq<Listed>, i: nat, k: nat): (s: seq<nat>)
    requires i < |ls| && k <= |ls[i].opts|
  {
    if k == 0 then [] else Shown(ls, i, k - 1) + if Own(ls, i, k - 1) && !ls[i].opts[k - 1].hidden then [k - 1] else []
  }

  /** hol_entry_short_iterate with a function that notes its options and goes on. */
  method ShortIterate(es: seq<Entry>, so: seq<int>, i: nat) returns (shown: seq<nat>)
    requires Canonical(es, so) && i < |es|
    ensures shown == Shown(Listing(es), i, |es[i].listed.opts|)
  {
    var opts := es[i].listed.opts;
    var at: nat := es[i].start;
    ghost var ls := Listing(es);
    shown := [];
    IterateStart(es, so, i);
    hide *;
    for k := 0 to |opts|
      invariant Iterating(ls, i, k, shown, at)
    {
      IterateTurn(ls, i, k, shown, at);
      if IsShort(opts[k]) && at < |so| && so[at] == opts[k].key {
        if !opts[k].hidden {
          shown := shown + [k];
        }
        at := at + 1;
      }
    }
    IterateDone(ls, i, |opts|, shown, at);
  }

  ghost predicate Iterating(ls: seq<Listed>, i: nat, k: nat, shown: seq<nat>, at: nat)
  {
    && i < |ls| && k <= |ls[i].opts|
    && shown == Shown(ls, i, k) && at == |Dedup(AllLetters(ls[..i]) + Letters(ls[i].opts[..k]))|
  }

  lemma IterateStart(es: seq<Entry>, so: seq<int>, i: nat)
    requires Canonical(es, so) && i < |es|
    ensures Iterating(Listing(es), i, 0, [], es[i].start) && so == Dedup(AllLetters(Listing(es)))
    ensures AllLetters(Listing(es)[..i]) + Letters(es[i].listed.opts) <= AllLetters(Listing(es))
  {
    MergeReady(es, so, i);
    hide Dedup;
    hide AllLetters;
    assert AllLetters(Listing(es)[..i]) + Letters(es[i].listed.opts[..0]) == AllLetters(Listing(es)[..i]);
  }

  lemma IterateTurn(ls: seq<Listed>, i: nat, k: nat, shown: seq<nat>, at: nat)
    requires Iterating(ls, i, k, shown, at) && k < |ls[i].opts|
    requires AllLetters(ls[..i]) + Letters(ls[i].opts) <= AllLetters(ls)
    ensures var o, so := ls[i].opts[k], Dedup(AllLetters(ls));
      if IsShort(o) && at < |so| && so[at] == o.key then
        Iterating(ls, i, k + 1, if o.hidden then shown else shown + [k], at + 1)
      else Iterating(ls, i, k + 1, shown, at)
  {
    hide Dedup;
    hide Letters;
    hide AllLetters;
    var seen := AllLetters(ls[..i]);
    OptionNext(ls[i].opts, k, seen, AllLetters(ls));
    DedupSnoc(seen + Letters(ls[i].opts[..k]), ls[i].opts[k].key);
    assert shown + [] == shown;
  }

  lemma IterateDone(ls: seq<Listed>, i: nat, k: nat, shown: seq<nat>, at: nat)
    requires Iterating(ls, i, k, shown, at)
    ensures shown == Shown(ls, i, k)
  {
  }
}
