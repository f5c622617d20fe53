/**
 * The range directory of a sequence collection: one (start, width, name)
 * record per member, the prefix sums that place a fresh collection's members
 * in its pool, and positional sub-setting. The interval library behind the
 * directory is represented only by this behaviour.
 */
module Directory {
  import opened Results
  import PySeq

  /** Where one member lives in the pool: bytes `[start, start + width)`. */
  datatype Record = Record(start: nat, width: nat, name: Option<string>)

  /** One past the last pool byte of a record. */
  function End(r: Record): nat {
    r.start + r.width
  }

  /** The sum of a list of widths. */
  function Sum(ws: seq<nat>): nat {
    if ws == [] then 0 else ws[0] + Sum(ws[1..])
  }

  /** Sums add up over concatenation. */
  lemma {:induction false} SumAppend(a: seq<nat>, b: seq<nat>)
    ensures Sum(a + b) == Sum(a) + Sum(b)
  {
    if a == [] {
      assert a + b == b;
    } else {
      assert (a + b)[1..] == a[1..] + b;
      SumAppend(a[1..], b);
    }
  }

  /** A prefix sums to no more than the whole list. */
  lemma SumPrefixBounded(ws: seq<nat>, i: nat)
    requires i <= |ws|
    ensures Sum(ws[..i]) <= Sum(ws)
  {
    assert ws == ws[..i] + ws[i..];
    SumAppend(ws[..i], ws[i..]);
  }

  /** One more element extends a prefix sum by that element. */
  lemma SumStep(ws: seq<nat>, i: nat)
    requires i < |ws|
    ensures Sum(ws[..i + 1]) == Sum(ws[..i]) + ws[i]
  {
    assert ws[..i + 1] == ws[..i] + [ws[i]];
    SumAppend(ws[..i], [ws[i]]);
  }

  /** The width column of a directory. */
  function Widths(rs: seq<Record>): (ws: seq<nat>)
    ensures |ws| == |rs|
  {
    seq(|rs|, i requires 0 <= i < |rs| => rs[i].width)
  }

  /** Start offsets as running sums of the earlier widths: start `i` is `widths[0] + ... + widths[i-1]`. */
  function RunningStarts(ws: seq<nat>): (ss: seq<nat>)
    ensures |ss| == |ws|
  {
    seq(|ws|, i requires 0 <= i < |ws| => Sum(ws[..i]))
  }

  /** Each running start is the previous one plus the previous width. */
  lemma RunningStartsStep(ws: seq<nat>, i: nat)
    requires 0 < i < |ws|
    ensures RunningStarts(ws)[i] == RunningStarts(ws)[i - 1] + ws[i - 1]
  {
    SumStep(ws, i - 1);
  }

  /** Appending a width appends the total so far as the next start. */
  lemma RunningStartsSnoc(ws: seq<nat>, w: nat)
    ensures RunningStarts(ws + [w]) == RunningStarts(ws) + [Sum(ws)]
  {
    var l := RunningStarts(ws + [w]);
    var r := RunningStarts(ws) + [Sum(ws)];
    forall i | 0 <= i < |l| ensures l[i] == r[i] {
      assert (ws + [w])[..i] == ws[..i];
    }
  }

  /** A prefix of a prefix is a prefix. */
  lemma PrefixOfPrefix<T>(s: seq<T>, k: nat)
    requires k <= |s|
    ensures forall i :: 0 <= i <= k ==> s[..k][..i] == s[..i]
  {
  }

  /** numpy's `cumsum`: element `i` is the sum of elements `0..i`. */
  function CumSum(ws: seq<nat>): (cs: seq<nat>)
    ensures |cs| == |ws|
    ensures forall i :: 0 <= i < |ws| ==> cs[i] == Sum(ws[..i + 1])
  {
    if ws == [] then []
    else
      var init := ws[..|ws| - 1];
      PrefixOfPrefix(ws, |ws| - 1);
      assert ws[..|ws|] == ws;
      CumSum(init) + [Sum(ws)]
  }

  /** The starts as written: `[0]` followed by the cumulative sums of all widths but the last. */
  function PyStarts(ws: seq<nat>): (ss: seq<nat>)
    ensures |ss| == if |ws| == 0 then 1 else |ws|
  {
    [0] + CumSum(PySeq.Slice(ws, None, Some(-1)))
  }

  /** For at least one width the written starts are the running sums. */
  lemma PyStartsMatches(ws: seq<nat>)
    requires |ws| >= 1
    ensures PyStarts(ws) == RunningStarts(ws)
  {
    var init := PySeq.Slice(ws, None, Some(-1));
    assert init == ws[..|ws| - 1];
    var l := PyStarts(ws);
    var r := RunningStarts(ws);
    forall i | 0 <= i < |ws| ensures l[i] == r[i] {
      if i > 0 {
        assert init[..i] == ws[..i];
      }
    }
  }

  /** For no widths the written starts still hold one entry, so starts and widths differ in length. */
  lemma PyStartsEmpty()
    ensures PyStarts([]) == [0]
    ensures |PyStarts([])| != |RunningStarts([])|
  {
  }

  /**
   * The directory constructor: parallel start, width and (optional) name
   * lists become records; lists of different lengths are refused.
   */
  function MakeDirectory(starts: seq<nat>, widths: seq<nat>, names: Option<seq<string>>): (r: Result<seq<Record>>)
    ensures r.Ok? <==> |starts| == |widths| && (names.Some? ==> |names.value| == |widths|)
    ensures r.Err? ==> r.error == RangesLengthMismatch
    ensures r.Ok? ==> Widths(r.value) == widths
    ensures r.Ok? ==> forall i :: 0 <= i < |r.value| ==> r.value[i].start == starts[i]
    ensures r.Ok? ==> forall i :: 0 <= i < |r.value| ==>
                        r.value[i].name == if names.Some? then Some(names.value[i]) else None
  {
    if |starts| != |widths| || (names.Some? && |names.value| != |widths|) then
      Err(RangesLengthMismatch)
    else
      var rs := seq(|widths|, i requires 0 <= i < |widths| =>
                      Record(starts[i], widths[i], if names.Some? then Some(names.value[i]) else None));
      assert Widths(rs) == widths;
      Ok(rs)
  }

  /** Records follow each other with no gap: each starts where the previous ends. */
  predicate Consecutive(rs: seq<Record>) {
    forall i :: 0 < i < |rs| ==> rs[i].start == End(rs[i - 1])
  }

  /** Every record's span lies inside a pool of `poolLength` bytes. */
  predicate WithinPool(rs: seq<Record>, poolLength: nat) {
    forall r | r in rs :: End(r) <= poolLength
  }

  /** The records cover `[0, poolLength)` in order: start `i` is the sum of the earlier widths, and all widths sum to the pool length. */
  predicate Tiles(rs: seq<Record>, poolLength: nat) {
    && (forall i :: 0 <= i < |rs| ==> rs[i].start == Sum(Widths(rs)[..i]))
    && Sum(Widths(rs)) == poolLength
  }

  /** A tiling is consecutive, stays inside the pool, starts at 0 and ends at the pool's end. */
  lemma TilesConsecutive(rs: seq<Record>, poolLength: nat)
    requires Tiles(rs, poolLength)
    ensures Consecutive(rs)
    ensures WithinPool(rs, poolLength)
    ensures |rs| > 0 ==> rs[0].start == 0 && End(rs[|rs| - 1]) == poolLength
  {
    var ws := Widths(rs);
    forall i | 0 < i < |rs| ensures rs[i].start == End(rs[i - 1]) {
      SumStep(ws, i - 1);
    }
    forall r | r in rs ensures End(r) <= poolLength {
      var i :| 0 <= i < |rs| && rs[i] == r;
      SumStep(ws, i);
      SumPrefixBounded(ws, i + 1);
    }
    if |rs| > 0 {
      SumStep(ws, |rs| - 1);
      assert ws[..|rs|] == ws;
    }
  }

  /**
   * Selection by a list of positions, each resolved as a Python index
   * (negative counts from the end): record `j` of the result is the
   * source record at `indices[j]`. The first position out of range is
   * reported.
   */
  function SelectPositions(rs: seq<Record>, indices: seq<int>): (r: Result<seq<Record>>)
    ensures r.Ok? <==> forall j :: 0 <= j < |indices| ==> -|rs| <= indices[j] < |rs|
    ensures r.Ok? ==> |r.value| == |indices|
    ensures r.Ok? ==> forall j :: 0 <= j < |indices| && -|rs| <= indices[j] < |rs| ==>
                        r.value[j] == rs[PySeq.Wrap(indices[j], |rs|)]
    ensures r.Err? ==> exists j :: 0 <= j < |indices| && !(-|rs| <= indices[j] < |rs|)
                                   && r.error == IndexOutOfRange(indices[j])
  {
    if indices == [] then Ok([])
    else if !(-|rs| <= indices[0] < |rs|) then Err(IndexOutOfRange(indices[0]))
    else
      match SelectPositions(rs, indices[1..])
      case Err(e) => Err(e)
      case Ok(rest) => Ok([rs[PySeq.Wrap(indices[0], |rs|)]] + rest)
  }

  /** Every record a selection holds comes from the source. */
  lemma SelectPositionsFromSource(rs: seq<Record>, indices: seq<int>)
    requires SelectPositions(rs, indices).Ok?
    ensures forall r | r in SelectPositions(rs, indices).value :: r in rs
  {
    var sel := SelectPositions(rs, indices).value;
    forall r | r in sel ensures r in rs {
      var j :| 0 <= j < |sel| && sel[j] == r;
    }
  }

  /** A contiguous range of a consecutive directory is again consecutive. */
  lemma SliceConsecutive(rs: seq<Record>, start: Option<int>, stop: Option<int>)
    ensures Consecutive(rs) ==> Consecutive(PySeq.Slice(rs, start, stop))
  {
  }
}
