/**
 * The first step of the throughput chart in `create_mips_chart`: keep the
 * backends whose average throughput was reported (not "N/A"), remember
 * their positions, and colour each bar by its position in a fixed palette
 * of four colours.
 */
module Throughput {
  import opened Wrappers
  import opened Report

  function Min(a: nat, b: nat): nat {
    if a <= b then a else b
  }

  /**
   * The positions below `n` whose throughput is present, in increasing
   * order: the reference the filter loop is proved against.
   */
  function PresentPositions(mips: seq<Option<real>>, n: nat): (idx: seq<nat>)
    requires n <= |mips|
    ensures forall k :: 0 <= k < |idx| ==> idx[k] < n && mips[idx[k]].Some?
    ensures forall k, l :: 0 <= k < l < |idx| ==> idx[k] < idx[l]
  {
    if n == 0 then []
    else
      var prev := PresentPositions(mips, n - 1);
      if mips[n - 1].Some? then prev + [n - 1] else prev
  }

  /** No present throughput below `n` is left out. */
  lemma {:induction false} PresentPositionsComplete(mips: seq<Option<real>>, n: nat, i: nat)
    requires n <= |mips| && i < n && mips[i].Some?
    ensures i in PresentPositions(mips, n)
  {
    if i < n - 1 {
      PresentPositionsComplete(mips, n - 1, i);
    }
  }

  /**
   * The loop over `zip(backends, avg_mips)`: `zip` stops at the shorter
   * list; a present throughput contributes its backend, its value and its
   * position, in order.
   */
  method FilterPresent(backends: seq<string>, mips: seq<Option<real>>)
    returns (validBackends: seq<string>, validMips: seq<real>, validIndices: seq<nat>)
    ensures validIndices == PresentPositions(mips, Min(|backends|, |mips|))
    ensures |validBackends| == |validMips| == |validIndices|
    ensures forall k :: 0 <= k < |validIndices| ==>
      validIndices[k] < |backends| && validBackends[k] == backends[validIndices[k]]
    ensures forall k :: 0 <= k < |validIndices| ==> mips[validIndices[k]] == Some(validMips[k])
  {
    var n := Min(|backends|, |mips|);
    validBackends, validMips, validIndices := [], [], [];
    var i := 0;
    while i < n
      invariant 0 <= i <= n
      invariant validIndices == PresentPositions(mips, i)
      invariant |validBackends| == |validMips| == |validIndices|
      invariant forall k :: 0 <= k < |validIndices| ==> validBackends[k] == backends[validIndices[k]]
      invariant forall k :: 0 <= k < |validIndices| ==> mips[validIndices[k]] == Some(validMips[k])
    {
      var backend, value := backends[i], mips[i];
      if value.Some? {
        assert PresentPositions(mips, i + 1) == validIndices + [i];
        validBackends := validBackends + [backend];
        validMips := validMips + [value.value];
        validIndices := validIndices + [i];
      } else {
        assert PresentPositions(mips, i + 1) == validIndices;
      }
      i := i + 1;
    }
  }

  /** `colors` in `create_mips_chart`: one colour per position, four positions. */
  const Palette: seq<string> := ["#1f77b4", "#ff7f0e", "#2ca02c", "#d62728"]

  /**
   * `[colors[i] for i in valid_indices]`: the colour at each position, or
   * the first position past the end of the palette, where `IndexError` is
   * raised.
   */
  function PaletteColors(indices: seq<nat>): (r: Result<seq<string>, nat>)
    ensures r.Ok? <==> forall k :: 0 <= k < |indices| ==> indices[k] < |Palette|
    ensures r.Ok? ==> |r.value| == |indices| && forall k :: 0 <= k < |indices| ==> r.value[k] == Palette[indices[k]]
    ensures r.Err? ==> exists k :: 0 <= k < |indices| && indices[k] == r.error && r.error >= |Palette|
                         && forall j :: 0 <= j < k ==> indices[j] < |Palette|
  {
    if indices == [] then Ok([])
    else if indices[0] >= |Palette| then Err(indices[0])
    else
      match PaletteColors(indices[1..])
      case Err(i) => Err(i)
      case Ok(rest) => Ok([Palette[indices[0]]] + rest)
  }

  /** In increasing positions, every position past the palette is at least the first such one. */
  lemma FirstPastPalette(idx: seq<nat>, k: nat)
    requires forall a, b :: 0 <= a < b < |idx| ==> idx[a] < idx[b]
    requires k < |idx| && forall j :: 0 <= j < k ==> idx[j] < |Palette|
    ensures forall l :: 0 <= l < |idx| ==> idx[l] < |Palette| || idx[k] <= idx[l]
  {
    forall l | 0 <= l < |idx| ensures idx[l] < |Palette| || idx[k] <= idx[l] {
      if k < l {
        assert idx[k] < idx[l];
      }
    }
  }

  /** Colouring fails at the first present throughput at position four or later. */
  lemma ColoursFailAt(mips: seq<Option<real>>, n: nat)
    requires n <= |mips| && PaletteColors(PresentPositions(mips, n)).Err?
    ensures var i := PaletteColors(PresentPositions(mips, n)).error;
      |Palette| <= i < n && mips[i].Some? && forall j :: |Palette| <= j < i ==> mips[j].None?
  {
    var idx := PresentPositions(mips, n);
    var i := PaletteColors(idx).error;
    var k :| 0 <= k < |idx| && idx[k] == i && i >= |Palette| && forall j :: 0 <= j < k ==> idx[j] < |Palette|;
    NonePresentBefore(mips, n, k);
  }

  /** Below the first present position past the palette, no position past the palette is present. */
  lemma NonePresentBefore(mips: seq<Option<real>>, n: nat, k: nat)
    requires n <= |mips|
    requires k < |PresentPositions(mips, n)| && PresentPositions(mips, n)[k] >= |Palette|
    requires forall j :: 0 <= j < k ==> PresentPositions(mips, n)[j] < |Palette|
    ensures forall j :: |Palette| <= j < PresentPositions(mips, n)[k] ==> mips[j].None?
  {
    var idx := PresentPositions(mips, n);
    FirstPastPalette(idx, k);
    forall j | |Palette| <= j < idx[k] ensures mips[j].None? {
      if mips[j].Some? {
        PresentPositionsComplete(mips, n, j);
      }
    }
  }

  /** Colouring succeeds when no throughput is present at position four or later. */
  lemma ColoursSucceed(mips: seq<Option<real>>, n: nat)
    requires n <= |mips| && PaletteColors(PresentPositions(mips, n)).Ok?
    ensures forall j :: |Palette| <= j < n ==> mips[j].None?
  {
    forall j | |Palette| <= j < n ensures mips[j].None? {
      if mips[j].Some? {
        PresentPositionsComplete(mips, n, j);
      }
    }
  }

  /**
   * Colouring the throughput bars fails exactly when a backend at position
   * four or later (within the shorter list) reports a throughput.
   */
  lemma ColoursFailOnFifthThroughput(mips: seq<Option<real>>, n: nat)
    requires n <= |mips|
    ensures PaletteColors(PresentPositions(mips, n)).Err? <==>
      exists i :: |Palette| <= i < n && mips[i].Some?
  {
    if PaletteColors(PresentPositions(mips, n)).Err? {
      ColoursFailAt(mips, n);
    } else {
      ColoursSucceed(mips, n);
    }
  }

  /**
   * For a parsed summary the four lists have one length, so the filter
   * looks at every backend.
   */
  lemma FilterSeesEveryBackend(s: BenchmarkSummary, content: string)
    requires ParseReport(content) == Ok(s)
    ensures Min(|s.backends|, |s.avgMips|) == |s.backends|
  {
    var body := ReportBody(content);
    assert s == Columns(CollectRows(body).value);
  }
}
