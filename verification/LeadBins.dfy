/** Grouping the prediction leads into bins that hold enough rows, and finding the bin of a lead. */
module LeadBins {
  import opened Searching

  /** A bin from one edge to a later one, open below and closed above. */
  datatype Bin = Bin(lo: nat, hi: nat)

  function Sum(counts: seq<nat>, lo: nat, hi: nat): nat
    requires lo <= hi <= |counts|
    decreases hi
  {
    if lo == hi then 0 else Sum(counts, lo, hi - 1) + counts[hi - 1]
  }

  lemma {:induction false} SumSplits(counts: seq<nat>, a: nat, b: nat, c: nat)
    requires a <= b <= c <= |counts|
    ensures Sum(counts, a, c) == Sum(counts, a, b) + Sum(counts, b, c)
    decreases c
  {
    if b < c {
      SumSplits(counts, a, b, c - 1);
    }
  }

  /** Bins one after another from edge 0 to edge `end`. */
  predicate Tile(bins: seq<Bin>, end: nat) {
    && (bins == [] ==> end == 0)
    && (bins != [] ==> bins[0].lo == 0 && bins[|bins| - 1].hi == end)
    && (forall k :: 0 <= k < |bins| ==> bins[k].lo < bins[k].hi <= end)
    && (forall k :: 0 < k < |bins| ==> bins[k - 1].hi == bins[k].lo)
  }

  predicate Full(counts: seq<nat>, minN: nat, b: Bin) {
    b.lo < b.hi <= |counts| && Sum(counts, b.lo, b.hi) >= minN
  }

  /** No earlier end would have held enough rows. */
  predicate Tight(counts: seq<nat>, minN: nat, b: Bin) {
    b.lo < b.hi <= |counts| && (b.hi - b.lo > 1 ==> Sum(counts, b.lo, b.hi - 1) < minN)
  }

  predicate AllFull(counts: seq<nat>, minN: nat, bins: seq<Bin>) {
    forall k :: 0 <= k < |bins| ==> Full(counts, minN, bins[k])
  }

  predicate AllTight(counts: seq<nat>, minN: nat, bins: seq<Bin>) {
    forall k :: 0 <= k < |bins| ==> Tight(counts, minN, bins[k])
  }

  lemma TileGrows(bins: seq<Bin>, start: nat, end: nat)
    requires Tile(bins, start) && start < end
    ensures Tile(bins + [Bin(start, end)], end)
  {
  }

  lemma FullGrows(counts: seq<nat>, minN: nat, bins: seq<Bin>, b: Bin)
    requires AllFull(counts, minN, bins) && AllTight(counts, minN, bins)
    requires Full(counts, minN, b) && Tight(counts, minN, b)
    ensures AllFull(counts, minN, bins + [b]) && AllTight(counts, minN, bins + [b])
  {
  }

  /** Collects neighbouring bins until they hold `minN` rows. */
  method Collect(counts: seq<nat>, minN: nat) returns (bins: seq<Bin>, start: nat)
    ensures start <= |counts| && Tile(bins, start)
    ensures start < |counts| ==> Sum(counts, start, |counts|) < minN
    ensures AllFull(counts, minN, bins) && AllTight(counts, minN, bins)
  {
    bins, start := [], 0;
    var acc := 0;
    for i := 0 to |counts|
      invariant 0 <= start <= i && acc == Sum(counts, start, i) && Tile(bins, start)
      invariant start < i ==> acc < minN
      invariant AllFull(counts, minN, bins) && AllTight(counts, minN, bins)
    {
      acc := acc + counts[i];
      if acc >= minN {
        TileGrows(bins, start, i + 1);
        FullGrows(counts, minN, bins, Bin(start, i + 1));
        bins := bins + [Bin(start, i + 1)];
        start, acc := i + 1, 0;
      }
    }
  }

  /** The bins tile all edges; each holds enough rows, unless all rows together do not and one bin is
      all there is; and none but the last could have ended earlier. */
  method Bins(counts: seq<nat>, minN: nat) returns (bins: seq<Bin>)
    ensures Tile(bins, |counts|)
    ensures AllFull(counts, minN, bins) || (bins == [Bin(0, |counts|)] && Sum(counts, 0, |counts|) < minN)
    ensures bins != [] ==> AllTight(counts, minN, bins[..|bins| - 1])
  {
    var start: nat;
    bins, start := Collect(counts, minN);
    if start < |counts| {
      if bins == [] {
        bins := [Bin(0, |counts|)];
      } else {
        var last := bins[|bins| - 1];
        assert Full(counts, minN, last);
        SumSplits(counts, last.lo, last.hi, |counts|);
        bins := bins[..|bins| - 1] + [Bin(last.lo, |counts|)];
      }
    }
  }

  /** The upper edges of all bins but the last. */
  function Cuts(edges: seq<real>, bins: seq<Bin>): (cuts: seq<real>)
    requires bins != [] && forall k :: 0 <= k < |bins| ==> bins[k].hi < |edges|
    ensures |cuts| == |bins| - 1
  {
    seq(|bins| - 1, k requires 0 <= k < |bins| - 1 => edges[bins[k].hi])
  }

  /** The number of a lead's bin. */
  function BinIndex(edges: seq<real>, bins: seq<Bin>, lead: real): nat
    requires bins != [] && forall k :: 0 <= k < |bins| ==> bins[k].hi < |edges|
  {
    Left(Cuts(edges, bins), lead)
  }

  lemma {:induction false} EdgesGrow(bins: seq<Bin>, end: nat, i: nat, j: nat)
    requires Tile(bins, end) && i <= j < |bins|
    ensures bins[i].hi <= bins[j].hi
    decreases j
  {
    if i < j {
      EdgesGrow(bins, end, i, j - 1);
    }
  }

  /** A lead belongs to the bin it is given: above its lower edge and not above its upper one, the
      first and the last bin being open outwards. */
  lemma LeadInItsBin(edges: seq<real>, bins: seq<Bin>, lead: real)
    requires Sorted(edges) && bins != [] && |edges| > 0 && Tile(bins, |edges| - 1)
    ensures var k := BinIndex(edges, bins, lead);
      && k < |bins|
      && (k > 0 ==> edges[bins[k].lo] < lead)
      && (k < |bins| - 1 ==> lead <= edges[bins[k].hi])
  {
    var cuts := Cuts(edges, bins);
    forall i, j | 0 <= i <= j < |cuts| ensures cuts[i] <= cuts[j] {
      EdgesGrow(bins, |edges| - 1, i, j);
    }
    LeftSplits(cuts, lead);
    var k := BinIndex(edges, bins, lead);
    assert k < |bins| - 1 ==> cuts[k] == edges[bins[k].hi];
    if k > 0 {
      assert cuts[k - 1] == edges[bins[k - 1].hi] == edges[bins[k].lo];
    }
  }
}
