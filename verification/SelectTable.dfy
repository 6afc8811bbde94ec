/** Bit selections done by table lookup.

crypt/crypt_util.c builds four tables in the same way (do_pc1, do_pc2, eperm32tab, efp, lines 379-477):
output bit o takes input bit from[o]; the input is cut into groups of w bits, and entry [g, j, h] holds
the bits of output word h that a group g of value j contributes.  Or-ing one entry per group then
performs the whole selection. */
module SelectTable {
  import opened Bits
  import opened BitSeq

  /** `per` output bits go to each output word; bit k of a word sits at place[k]. */
  datatype Layout = Layout(from: seq<nat>, w: nat, groups: nat, per: nat, place: seq<nat>, halves: nat) {
    predicate Valid()
    {
      && w >= 1 && per >= 1 && |place| == per && |from| == halves * per
      && (forall o :: 0 <= o < |from| ==> from[o] < groups * w)
      && (forall k :: 0 <= k < per ==> place[k] < 32)
      && (forall k, l :: 0 <= k < l < per ==> place[k] < place[l])
    }

    /** The input bit that ends up as bit k of word h. */
    function Source(h: nat, k: nat): (s: nat)
      requires Valid() && h < halves && k < per
      ensures s < groups * w
    {
      SlotInRange(h, k, halves, per);
      from[h * per + k]
    }

    /** What group g of value j contributes to bit k of word h. */
    predicate Contributes(g: nat, j: nat, h: nat, k: nat)
      requires Valid() && h < halves && k < per
    {
      Source(h, k) / w == g && FromNat(j, w)[Source(h, k) % w]
    }

    /** The entry once the output bits below `upto` are entered. */
    ghost predicate EntryOk(e: Word, g: nat, j: nat, h: nat, upto: nat)
      requires Valid() && h < halves
    {
      && (forall k {:trigger place[k]} :: 0 <= k < per ==>
            e[place[k]] == (h * per + k < upto && Contributes(g, j, h, k)))
      && (forall i :: 0 <= i < 32 && i !in place ==> !e[i])
    }
  }

  lemma SlotInRange(h: nat, k: nat, n: nat, per: nat)
    requires h < n && k < per
    ensures 0 <= h * per + k < n * per
  {
    Scale(h + 1, n, per);
  }

  lemma Scale(x: nat, y: nat, z: nat)
    requires x <= y
    ensures x * z <= y * z
  {
  }

  lemma SplitIndex(x: nat, w: nat, n: nat)
    requires w >= 1 && x < n * w
    ensures 0 <= x / w < n && 0 <= x % w < w && x == (x / w) * w + x % w
  {
    if x / w >= n { Scale(n, x / w, w); }
  }

  lemma SlotUnique(h: nat, k: nat, o: nat, per: nat)
    requires k < per && h * per + k == o
    ensures h == o / per && k == o % per
  {
    if h < o / per { Scale(h + 1, o / per, per); }
    if h > o / per { Scale(o / per + 1, h, per); }
  }

  ghost predicate Filled(tab: array3<Word>, t: Layout, upto: nat)
    requires t.Valid()
    reads tab
  {
    && tab.Length0 == t.groups && tab.Length1 == Pow2(t.w) && tab.Length2 == t.halves
    && forall g, j, h :: 0 <= g < t.groups && 0 <= j < Pow2(t.w) && 0 <= h < t.halves ==>
         t.EntryOk(tab[g, j, h], g, j, h, upto)
  }

  /** The inner loop: enter output bit o for every value of its group. */
  method EnterBit(tab: array3<Word>, t: Layout, o: nat)
    requires t.Valid() && o < |t.from| && Filled(tab, t, o)
    modifies tab
    ensures Filled(tab, t, o + 1)
  {
    var g0, pos, h0, k0 := t.from[o] / t.w, t.from[o] % t.w, o / t.per, o % t.per;
    SplitIndex(t.from[o], t.w, t.groups);
    SplitIndex(o, t.per, t.halves);
    hide Pow2;
    hide FromNat;
    for j := 0 to Pow2(t.w)
      invariant forall g, j', h {:trigger tab[g, j', h]} ::
          0 <= g < t.groups && 0 <= j' < Pow2(t.w) && 0 <= h < t.halves ==>
                  tab[g, j', h] == if g == g0 && h == h0 && j' < j && FromNat(j', t.w)[pos]
                                   then old(tab[g, j', h])[t.place[k0] := true] else old(tab[g, j', h])
    {
      if FromNat(j, t.w)[pos] {
        tab[g0, j, h0] := tab[g0, j, h0][t.place[k0] := true];
      }
    }
    forall g, j, h | 0 <= g < t.groups && 0 <= j < Pow2(t.w) && 0 <= h < t.halves
      ensures t.EntryOk(tab[g, j, h], g, j, h, o + 1)
    {
      EntryGrows(t, old(tab[g, j, h]), tab[g, j, h], g, j, h, o);
    }
  }

  lemma EntryGrows(t: Layout, e: Word, e': Word, g: nat, j: nat, h: nat, o: nat)
    requires t.Valid() && o < |t.from| && h < t.halves && t.EntryOk(e, g, j, h, o)
    requires 0 <= o % t.per < t.per && 0 <= t.from[o] % t.w < t.w && o == (o / t.per) * t.per + o % t.per
    requires e' == if g == t.from[o] / t.w && h == o / t.per && FromNat(j, t.w)[t.from[o] % t.w]
                   then e[t.place[o % t.per] := true] else e
    ensures t.EntryOk(e', g, j, h, o + 1)
  {
    hide FromNat;
    forall k | 0 <= k < t.per
      ensures e'[t.place[k]] == (h * t.per + k < o + 1 && t.Contributes(g, j, h, k))
    {
      if h * t.per + k == o {
        SlotUnique(h, k, o, t.per);
      }
    }
  }

  lemma EmptyOk(t: Layout, g: nat, j: nat, h: nat)
    requires t.Valid() && h < t.halves
    ensures t.EntryOk(Zeros(32), g, j, h, 0)
  {
  }

  /** Building the whole table. */
  method Build(t: Layout) returns (tab: array3<Word>)
    requires t.Valid()
    ensures fresh(tab) && Filled(tab, t, |t.from|)
  {
    hide t.EntryOk;
    tab := new Word[t.groups, Pow2(t.w), t.halves]((_, _, _) => Zeros(32));
    forall g, j, h | 0 <= g < t.groups && 0 <= j < Pow2(t.w) && 0 <= h < t.halves
      ensures t.EntryOk(tab[g, j, h], g, j, h, 0)
    {
      EmptyOk(t, g, j, h);
    }
    for o := 0 to |t.from|
      invariant fresh(tab)
      invariant Filled(tab, t, o)
    {
      EnterBit(tab, t, o);
    }
  }

  // ----- Using a table -----

  /** Word v holds the selected bits whose source lies in groups lo to hi - 1. */
  ghost predicate Gathered(v: Word, t: Layout, x: BitStr, h: nat, lo: int, hi: int)
    requires t.Valid() && h < t.halves && |x| == t.groups * t.w
  {
    && (forall k {:trigger t.place[k]} :: 0 <= k < t.per ==>
          v[t.place[k]] == (lo <= t.Source(h, k) / t.w < hi && x[t.Source(h, k)]))
    && (forall i :: 0 <= i < 32 && i !in t.place ==> !v[i])
  }

  lemma NothingGathered(t: Layout, x: BitStr, h: nat, g: int)
    requires t.Valid() && h < t.halves && |x| == t.groups * t.w
    ensures Gathered(Zeros(32), t, x, h, g, g)
  {
  }

  /** The index with which group g of x is looked up. */
  function GroupIndex(x: BitStr, w: nat, g: nat): (j: nat)
    requires (g + 1) * w <= |x|
    ensures j < Pow2(w)
  {
    ToNat(x[g * w..g * w + w])
  }

  /** One lookup more, at either end of the groups already looked up. */
  lemma GatherGroup(v: Word, t: Layout, e: Word, x: BitStr, h: nat, lo: int, hi: int, g: nat, j: nat)
    requires t.Valid() && h < t.halves && |x| == t.groups * t.w && g < t.groups && Gathered(v, t, x, h, lo, hi)
    requires (g + 1) * t.w <= |x| && j == GroupIndex(x, t.w, g) && t.EntryOk(e, g, j, h, |t.from|)
    requires lo <= hi && (g == hi || g == lo - 1)
    ensures Gathered(Or(v, e), t, x, h, if g == hi then lo else lo - 1, if g == hi then hi + 1 else hi)
  {
    var lo', hi' := if g == hi then lo else lo - 1, if g == hi then hi + 1 else hi;
    forall k | 0 <= k < t.per
      ensures Or(v, e)[t.place[k]] == (lo' <= t.Source(h, k) / t.w < hi' && x[t.Source(h, k)])
    {
      assert e[t.place[k]] == t.Contributes(g, j, h, k) by { SlotInRange(h, k, t.halves, t.per); }
      ContributesBit(t, x, h, g, j, k);
    }
  }

  /** A group contributes the bit it holds. */
  lemma ContributesBit(t: Layout, x: BitStr, h: nat, g: nat, j: nat, k: nat)
    requires t.Valid() && h < t.halves && k < t.per && |x| == t.groups * t.w
    requires (g + 1) * t.w <= |x| && j == GroupIndex(x, t.w, g)
    ensures t.Contributes(g, j, h, k) == (t.Source(h, k) / t.w == g && x[t.Source(h, k)])
  {
    hide t.Valid;
    hide t.Source;
    hide FromNat;
    hide ToNat;
    var s := t.Source(h, k);
    SplitIndex(s, t.w, t.groups);
    var y := x[g * t.w..g * t.w + t.w];
    FromToNat(y);
    if s / t.w == g {
      assert y[s % t.w] == x[s];
    }
  }

  method LookUp(tab: array3<Word>, ghost t: Layout, v: Word, h: nat, g: nat, j: nat, ghost x: BitStr, ghost lo: int,
                ghost hi: int)
    returns (v': Word)
    requires t.Valid() && Filled(tab, t, |t.from|) && h < t.halves && g < t.groups && |x| == t.groups * t.w
    requires Gathered(v, t, x, h, lo, hi) && lo <= hi && (g == hi || g == lo - 1)
    requires (g + 1) * t.w <= |x| && j == GroupIndex(x, t.w, g)
    ensures Gathered(v', t, x, h, if g == hi then lo else lo - 1, if g == hi then hi + 1 else hi)
  {
    hide t.EntryOk;
    hide Gathered;
    v' := Or(v, tab[g, j, h]);
    GatherGroup(v, t, tab[g, j, h], x, h, lo, hi, g, j);
  }

  /** With every group looked up, the word holds the whole selection. */
  ghost predicate Selected(v: Word, t: Layout, x: BitStr, h: nat)
    requires t.Valid() && h < t.halves && |x| == t.groups * t.w
  {
    && (forall k {:trigger t.place[k]} :: 0 <= k < t.per ==> v[t.place[k]] == x[t.Source(h, k)])
    && (forall i :: 0 <= i < 32 && i !in t.place ==> !v[i])
  }

  lemma AllGathered(v: Word, t: Layout, x: BitStr, h: nat)
    requires t.Valid() && h < t.halves && |x| == t.groups * t.w && Gathered(v, t, x, h, 0, t.groups)
    ensures Selected(v, t, x, h)
  {
    forall k | 0 <= k < t.per
      ensures v[t.place[k]] == x[t.Source(h, k)]
    {
      SplitIndex(t.Source(h, k), t.w, t.groups);
    }
  }
}
