/**
 * Concrete collections, each built by the constructor as written, and the
 * counterexamples to the written `unlist`.
 */
module Scenarios {
  import opened Results
  import opened Alphabet
  import opened Directory
  import opened DnaStringSets

  lemma PoolSlices(p: string)
    requires p == "AACCGGTT"
    ensures p[0..2] == "AA" && p[2..4] == "CC" && p[4..6] == "GG" && p[6..8] == "TT"
  {
    assert p[0..2] == [p[0], p[1]];
    assert p[2..4] == [p[2], p[3]];
    assert p[4..6] == [p[4], p[5]];
    assert p[6..8] == [p[6], p[7]];
  }

  /** The counterexample collection lists its members in directory order: "AA", "GG", "CC", "TT". */
  lemma PermutedMembers(s: DnaStringSet)
    requires s.pool == "AACCGGTT"
    requires s.ranges == [Record(0, 2, None), Record(4, 2, None), Record(2, 2, None), Record(6, 2, None)]
    ensures Valid(s)
    ensures ToList(s) == ["AA", "GG", "CC", "TT"]
  {
    forall i | 0 <= i < 4 ensures ToList(s)[i] == s.pool[s.ranges[i].start..End(s.ranges[i])] {
      PieceWithinPool(s.pool, s.ranges[i]);
    }
    PoolSlices(s.pool);
  }

  /** Joining the four members in that order. */
  lemma JoinPermuted(parts: seq<string>)
    requires parts == ["AA", "GG", "CC", "TT"]
    ensures Concat(parts) == "AAGGCCTT"
  {
    assert parts[3..][1..] == [];
    assert Concat(parts[3..]) == "TT";
    assert parts[2..][1..] == parts[3..];
    assert Concat(parts[2..]) == "CC" + "TT";
    assert parts[1..][1..] == parts[2..];
    assert Concat(parts[1..]) == "GG" + ("CC" + "TT");
    assert Concat(parts) == "AA" + ("GG" + ("CC" + "TT"));
  }

  lemma UnlistGuardCounterexample(s: DnaStringSet)
    requires s.pool == "AACCGGTT"
    requires s.ranges == [Record(0, 2, None), Record(4, 2, None), Record(2, 2, None), Record(6, 2, None)]
    ensures Valid(s)
    ensures SpanMatchesWidth(s) && !Consecutive(s.ranges)
    ensures UnlistAsWritten(s) == Ok(DnaStrings.DnaString("AACCGGTT"))
    ensures Concat(ToList(s)) == "AAGGCCTT"
    ensures Unlist(s).data == "AAGGCCTT"
  {
    assert Width(s) == [2, 2, 2, 2];
    assert Sum([2, 2, 2, 2]) == 8;
    assert s.ranges[1].start != End(s.ranges[0]);
    PermutedMembers(s);
    JoinPermuted(ToList(s));
    assert FirstStart(s) == 0 && LastEnd(s) == 8;
    PySeq.SliceHalfOpen(s.pool, 0, 8);
    assert s.pool[0..8] == s.pool;
  }

  lemma SumsOfTwos(ws: seq<nat>)
    requires ws == [2, 2, 2, 2]
    ensures RunningStarts(ws) == [0, 2, 4, 6]
  {
    assert ws[..0] == [];
    assert ws[..1] == [2];
    assert ws[..2] == [2, 2];
    assert ws[..3] == [2, 2, 2];
    assert Sum([2]) == 2 && Sum([2, 2]) == 4 && Sum([2, 2, 2]) == 6;
    var r := RunningStarts(ws);
    assert r[0] == 0 && r[1] == 2 && r[2] == 4 && r[3] == 6;
    assert r == [r[0], r[1], r[2], r[3]];
  }

  lemma BuildIs(texts: seq<string>, names: Option<seq<string>>)
    requires Build(texts, names).Ok?
    ensures Build(texts, names).value.pool == Concat(UpperAll(texts))
    ensures Build(texts, names) == Ok(DnaStringSet(Concat(UpperAll(texts)), MakeDirectory(RunningStarts(Lengths(texts)), Lengths(texts), names).value))
  {
  }

  lemma PairsValid(texts: seq<string>)
    requires texts == ["AA", "CC", "GG", "TT"]
    ensures forall i :: 0 <= i < |texts| ==> IsDnaText(texts[i])
    ensures Lengths(texts) == [2, 2, 2, 2]
  {
    assert IsDnaText(texts[0]) && IsDnaText(texts[1]) && IsDnaText(texts[2]) && IsDnaText(texts[3]);
  }

  lemma PairsPool(texts: seq<string>)
    requires texts == ["AA", "CC", "GG", "TT"]
    ensures Concat(UpperAll(texts)) == "AACCGGTT"
  {
    assert UpperText("AA") == "AA" && UpperText("CC") == "CC" && UpperText("GG") == "GG" && UpperText("TT") == "TT";
    assert UpperAll(texts) == texts;
    assert Concat(["AA", "CC", "GG", "TT"]) == "AACCGGTT";
  }

  lemma BuildPairs(texts: seq<string>)
    requires texts == ["AA", "CC", "GG", "TT"]
    ensures BuildAsWritten(texts, None) == Build(texts, None)
    ensures Build(texts, None) == Ok(DnaStringSet("AACCGGTT", [Record(0, 2, None), Record(2, 2, None), Record(4, 2, None), Record(6, 2, None)]))
  {
    PairsValid(texts);
    BuildAsWrittenAgreesOnValid(texts, None);
    PairsPool(texts);
    BuildOfPairs(texts);
  }

  /** Any valid texts of widths 2, 2, 2, 2 whose upper-case join is "AACCGGTT" build the pairs collection. */
  lemma BuildOfPairs(texts: seq<string>)
    requires forall i :: 0 <= i < |texts| ==> IsDnaText(texts[i])
    requires Lengths(texts) == [2, 2, 2, 2]
    requires Concat(UpperAll(texts)) == "AACCGGTT"
    ensures Build(texts, None) == Ok(DnaStringSet("AACCGGTT", [Record(0, 2, None), Record(2, 2, None), Record(4, 2, None), Record(6, 2, None)]))
  {
    SumsOfTwos(Lengths(texts));
    BuildIs(texts, None);
    var d := MakeDirectory([0, 2, 4, 6], [2, 2, 2, 2], None);
    assert d.Ok?;
    assert d.value == [Record(0, 2, None), Record(2, 2, None), Record(4, 2, None), Record(6, 2, None)];
  }

  lemma Reach(texts: seq<string>)
    requires texts == ["AA", "CC", "GG", "TT"]
    ensures BuildAsWritten(texts, None) == Build(texts, None)
    ensures Build(texts, None).Ok?
    ensures SelectList(Build(texts, None).value, [0, 2, 1, 3])
         == Ok(DnaStringSet("AACCGGTT", [Record(0, 2, None), Record(4, 2, None), Record(2, 2, None), Record(6, 2, None)]))
  {
    BuildPairs(texts);
    SwapMiddlePairs(Build(texts, None).value);
  }

  /** Selecting positions 0, 2, 1, 3 of the pairs collection swaps its middle records. */
  lemma SwapMiddlePairs(v: DnaStringSet)
    requires v == DnaStringSet("AACCGGTT", [Record(0, 2, None), Record(2, 2, None), Record(4, 2, None), Record(6, 2, None)])
    ensures SelectList(v, [0, 2, 1, 3])
         == Ok(DnaStringSet("AACCGGTT", [Record(0, 2, None), Record(4, 2, None), Record(2, 2, None), Record(6, 2, None)]))
  {
    var idx := [0, 2, 1, 3];
    var sp := SelectPositions(v.ranges, idx);
    assert sp.Ok?;
    var rs := sp.value;
    assert rs[0] == v.ranges[0] && rs[1] == v.ranges[2] && rs[2] == v.ranges[1] && rs[3] == v.ranges[3];
    assert rs == [Record(0, 2, None), Record(4, 2, None), Record(2, 2, None), Record(6, 2, None)];
  }

  /** Every listed text passes the validator, and the texts have the given lengths. */
  lemma AllValid(texts: seq<string>, lengths: seq<nat>)
    requires texts == ["ACGTACGT", "GGCC", "TTAA"] || texts == ["ACGTACGT", "NNNN", "GATTACA"]
    requires lengths == if texts[2] == "TTAA" then [8, 4, 4] else [8, 4, 7]
    ensures forall i :: 0 <= i < |texts| ==> IsDnaText(texts[i])
    ensures Lengths(texts) == lengths
  {
    assert IsDnaText("ACGTACGT") && IsDnaText("GGCC") && IsDnaText("TTAA");
    assert IsDnaText("NNNN") && IsDnaText("GATTACA");
  }

  /** A member already in stored form comes back unchanged from a fresh build. */
  lemma GetStored(texts: seq<string>, k: nat)
    requires forall i :: 0 <= i < |texts| ==> IsDnaText(texts[i])
    requires k < |texts| && IsDnaData(texts[k])
    ensures Build(texts, None).Ok?
    ensures Get(Build(texts, None).value, k).Ok?
    ensures Get(Build(texts, None).value, k).value.data == texts[k]
  {
    BuildGet(texts, None, k);
    UpperTextFixesDnaData(texts[k]);
  }

  /** Three inputs: three members with widths 8, 4 and 4, and member 1 is "GGCC". */
  lemma ThreeSequences(texts: seq<string>)
    requires texts == ["ACGTACGT", "GGCC", "TTAA"]
    ensures BuildAsWritten(texts, None) == Build(texts, None)
    ensures Build(texts, None).Ok?
    ensures Length(Build(texts, None).value) == 3
    ensures Width(Build(texts, None).value) == [8, 4, 4]
    ensures Get(Build(texts, None).value, 1).Ok?
    ensures Get(Build(texts, None).value, 1).value.data == "GGCC"
  {
    AllValid(texts, [8, 4, 4]);
    BuildAsWrittenAgreesOnValid(texts, None);
    StoredForm(texts[1]);
    BuildOfWidths(texts);
  }

  /** "GGCC" is already in stored form. */
  lemma StoredForm(t: string)
    requires t == "GGCC"
    ensures IsDnaData(t)
  {
    assert t[0] == 'G' && t[1] == 'G' && t[2] == 'C' && t[3] == 'C';
  }

  /** Valid texts of widths 8, 4 and 4 whose second one is "GGCC" build three members, the second "GGCC". */
  lemma BuildOfWidths(texts: seq<string>)
    requires forall i :: 0 <= i < |texts| ==> IsDnaText(texts[i])
    requires Lengths(texts) == [8, 4, 4]
    requires texts[1] == "GGCC" && IsDnaData(texts[1])
    ensures Build(texts, None).Ok?
    ensures Length(Build(texts, None).value) == 3
    ensures Width(Build(texts, None).value) == [8, 4, 4]
    ensures Get(Build(texts, None).value, 1).Ok?
    ensures Get(Build(texts, None).value, 1).value.data == "GGCC"
  {
    GetStored(texts, 1);
  }

  /** The texts are already upper case. */
  lemma UpperFixes(texts: seq<string>)
    requires texts == ["ACGTACGT", "NNNN", "GATTACA"]
    ensures UpperText(texts[0]) == "ACGTACGT" && UpperText(texts[2]) == "GATTACA"
  {
    assert IsDnaData("ACGTACGT") && IsDnaData("GATTACA");
    UpperTextFixesDnaData("ACGTACGT");
    UpperTextFixesDnaData("GATTACA");
  }

  /** The layout of any valid three-text build with widths 8, 4 and 7. */
  lemma LayoutOfWidths(texts: seq<string>, names: seq<string>)
    requires forall i :: 0 <= i < |texts| ==> IsDnaText(texts[i])
    requires Lengths(texts) == [8, 4, 7] && |names| == 3
    ensures Build(texts, Some(names)).Ok?
    ensures var s := Build(texts, Some(names)).value;
            && Length(s) == 3
            && s.ranges[0].start == 0 && s.ranges[0].width == 8
            && s.ranges[2].start == 12 && s.ranges[2].width == 7
            && s.ranges[0].name == Some(names[0]) && s.ranges[2].name == Some(names[2])
            && ToList(s) == UpperAll(texts)
  {
    var s := Build(texts, Some(names)).value;
    TilesConsecutive(s.ranges, |s.pool|);
    var ws := Width(s);
    assert ws == [8, 4, 7];
    assert s.ranges[1].start == End(s.ranges[0]);
    assert s.ranges[2].start == End(s.ranges[1]);
    BuildToList(texts, Some(names));
  }

  /** The pieces the gap scenario relies on: the members' starts and upper-cased texts. */
  lemma GapLayout(texts: seq<string>, names: seq<string>)
    requires texts == ["ACGTACGT", "NNNN", "GATTACA"]
    requires names == ["s1", "s2", "s3"]
    ensures BuildAsWritten(texts, Some(names)) == Build(texts, Some(names))
    ensures Build(texts, Some(names)).Ok?
    ensures var s := Build(texts, Some(names)).value;
            && Valid(s) && Length(s) == 3
            && s.ranges[0].start == 0 && s.ranges[0].width == 8
            && s.ranges[2].start == 12 && s.ranges[2].width == 7
            && s.ranges[0].name == Some("s1") && s.ranges[2].name == Some("s3")
            && ToList(s)[0] == "ACGTACGT" && ToList(s)[2] == "GATTACA"
  {
    AllValid(texts, [8, 4, 7]);
    BuildAsWrittenAgreesOnValid(texts, Some(names));
    LayoutOfWidths(texts, names);
    UpperFixes(texts);
  }

  /**
   * Two members that leave a gap between them in the pool: the intended
   * `unlist` joins them, and the written one reaches the type error.
   */
  lemma GapPairJoins(v: DnaStringSet)
    requires Valid(v) && |v.ranges| == 2
    requires v.ranges[0].start == 0 && v.ranges[0].width == 8
    requires v.ranges[1].start == 12 && v.ranges[1].width == 7
    requires ToList(v) == ["ACGTACGT", "GATTACA"]
    ensures !Consecutive(v.ranges)
    ensures Unlist(v).data == "ACGTACGTGATTACA"
    ensures UnlistAsWritten(v) == Err(TextJoinedAsBytes)
  {
    assert v.ranges[1].start != End(v.ranges[0]);
    var parts := ToList(v);
    assert parts[1..][1..] == [];
    assert Concat(parts[1..]) == "GATTACA";
    assert Concat(parts) == "ACGTACGT" + "GATTACA";
    assert !SpanMatchesWidth(v) by {
      assert Width(v) == [8, 7];
      assert Sum([8, 7]) == 15;
    }
  }

  /** Selecting members 0 and 2 of a three-member collection laid out like the gap scenario. */
  lemma GapSelection(s: DnaStringSet)
    requires Valid(s) && Length(s) == 3
    requires s.ranges[0].start == 0 && s.ranges[0].width == 8
    requires s.ranges[2].start == 12 && s.ranges[2].width == 7
    requires s.ranges[0].name == Some("s1") && s.ranges[2].name == Some("s3")
    requires ToList(s)[0] == "ACGTACGT" && ToList(s)[2] == "GATTACA"
    ensures SelectList(s, [0, 2]).Ok?
    ensures var v := SelectList(s, [0, 2]).value;
            && Length(v) == 2
            && v.ranges[0].name == Some("s1") && v.ranges[1].name == Some("s3")
            && !Consecutive(v.ranges)
            && Unlist(v).data == "ACGTACGTGATTACA"
            && UnlistAsWritten(v) == Err(TextJoinedAsBytes)
  {
    var v := SelectList(s, [0, 2]).value;
    var sp := SelectPositions(s.ranges, [0, 2]);
    assert v.ranges == sp.value;
    assert v.ranges[0] == s.ranges[0] && v.ranges[1] == s.ranges[2];
    assert ToList(v)[0] == ToList(s)[0] && ToList(v)[1] == ToList(s)[2];
    assert ToList(v) == ["ACGTACGT", "GATTACA"];
    GapPairJoins(v);
  }

  /**
   * Selecting members 0 and 2 of three named inputs keeps their names;
   * `unlist` joins them without the skipped middle member's bytes, where
   * the written `unlist` raises its type error.
   */
  lemma SelectionSkipsGap(texts: seq<string>, names: seq<string>)
    requires texts == ["ACGTACGT", "NNNN", "GATTACA"]
    requires names == ["s1", "s2", "s3"]
    ensures BuildAsWritten(texts, Some(names)) == Build(texts, Some(names))
    ensures Build(texts, Some(names)).Ok?
    ensures SelectList(Build(texts, Some(names)).value, [0, 2]).Ok?
    ensures var v := SelectList(Build(texts, Some(names)).value, [0, 2]).value;
            && Length(v) == 2
            && v.ranges[0].name == Some("s1") && v.ranges[1].name == Some("s3")
            && !Consecutive(v.ranges)
            && Unlist(v).data == "ACGTACGTGATTACA"
            && UnlistAsWritten(v) == Err(TextJoinedAsBytes)
  {
    GapLayout(texts, names);
    GapSelection(Build(texts, Some(names)).value);
  }
}
