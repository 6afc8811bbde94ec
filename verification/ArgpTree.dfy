/** Trees of option tables: include/argp.h:62-240 and 570-590. */
module ArgpTree {

  datatype Option<+T> = None | Some(value: T)

  /** struct argp_option: flags are spelled out, the texts that only help prints are left out. */
  datatype Opt = Opt(name: Option<string>, key: int, hasArg: bool, argOptional: bool, hidden: bool, alias: bool,
                     doc: bool, group: int)

  /** struct argp with the list of its children; the end markers of both lists are not part of the sequences.
      The parser function, if there is one, is given by its address. */
  datatype Argp = Argp(options: Option<seq<Opt>>, parser: Option<int>, children: seq<Argp>)

  /** isprint in the C locale. */
  predicate IsPrint(c: int) { 0x20 <= c < 0x7f }

  /** __option_is_short. */
  predicate IsShort(o: Opt) { !o.doc && 0 < o.key <= 255 && IsPrint(o.key) }

  /** In other words: an option that is not mere text and whose key is a printable character. */
  lemma IsShortMeans(o: Opt)
    ensures IsShort(o) <==> !o.doc && 32 <= o.key <= 126
  {
  }

  function OptionsOf(a: Argp): seq<Opt> { if a.options.Some? then a.options.value else [] }

  /** All tables, each before its children. */
  function Preorder(a: Argp): (s: seq<Argp>)
    ensures |s| >= 1 && s[0] == a
    decreases a
  {
    [a] + PreorderAll(a.children)
  }

  function PreorderAll(cs: seq<Argp>): seq<Argp>
    decreases cs
  {
    if cs == [] then [] else Preorder(cs[0]) + PreorderAll(cs[1..])
  }

  /** A tree comes before its children, and children in their order. */
  lemma PreorderIs(a: Argp, cs: seq<Argp>, ds: seq<Argp>)
    ensures Preorder(a) == [a] + PreorderAll(a.children) && PreorderAll([]) == [] && PreorderAll([a]) == Preorder(a)
    ensures PreorderAll(cs + ds) == PreorderAll(cs) + PreorderAll(ds)
  {
    PreorderAppend(cs, ds);
  }

  lemma {:induction false} PreorderAppend(cs: seq<Argp>, ds: seq<Argp>)
    ensures PreorderAll(cs + ds) == PreorderAll(cs) + PreorderAll(ds)
    decreases |cs|
  {
    if cs == [] {
      assert cs + ds == ds;
    } else {
      assert (cs + ds)[1..] == cs[1..] + ds;
      PreorderAppend(cs[1..], ds);
    }
  }

  /** The first list that holds c. */
  function FirstWith(lists: seq<seq<int>>, c: int): (k: Option<nat>)
    ensures k.Some? ==> k.value < |lists| && c in lists[k.value] && forall j :: 0 <= j < k.value ==> c !in lists[j]
    ensures k.None? ==> forall j :: 0 <= j < |lists| ==> c !in lists[j]
  {
    if lists == [] then None else
      var k := FirstWith(lists[..|lists| - 1], c);
      if k.Some? then k else if c in lists[|lists| - 1] then Some(|lists| - 1) else None
  }

  lemma FirstWithMore(lists: seq<seq<int>>, l: seq<int>, c: int)
    ensures var k := FirstWith(lists, c);
            FirstWith(lists + [l], c) == if k.Some? then k else if c in l then Some(|lists|) else None
  {
    assert (lists + [l])[..|lists|] == lists;
  }
}
