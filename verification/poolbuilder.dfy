/**
 * The native pool builder: the same bulk construction as the collection's
 * public constructor, written as one pass over the inputs that validates and
 * upper-cases each character, appends it to the pool and keeps a running start.
 */
module PoolBuilder {
  import opened Results
  import opened Alphabet
  import opened Directory
  import opened DnaStringSets

  /** Joining one more part extends the join by that part. */
  lemma ConcatSnoc(parts: seq<string>, t: string)
    ensures Concat(parts + [t]) == Concat(parts) + t
  {
    ConcatAppend(parts, [t]);
    assert Concat([t]) == t by {
      assert [t][1..] == [];
    }
  }

  /** Upper-casing one more character extends the upper-cased prefix by that character. */
  lemma UpperTextSnoc(s: string, k: nat)
    requires k < |s|
    ensures UpperText(s[..k + 1]) == UpperText(s[..k]) + [Upper(s[k])]
  {
    var l := UpperText(s[..k + 1]);
    var r := UpperText(s[..k]) + [Upper(s[k])];
    assert forall i :: 0 <= i < |l| ==> l[i] == r[i];
  }

  /**
   * The per-character loop: upper-case each character and stop at the
   * first one that is not a DNA letter afterwards.
   */
  method UpperChecked(s: string) returns (ok: bool, upper: string)
    ensures ok <==> IsDnaText(s)
    ensures ok ==> upper == UpperText(s)
  {
    upper := "";
    var k := 0;
    while k < |s|
      invariant 0 <= k <= |s|
      invariant upper == UpperText(s[..k])
      invariant forall c | c in s[..k] :: AcceptsChar(c)
    {
      var c := Upper(s[k]);
      if !IsDnaLetter(c) {
        assert s[k] in s;
        return false, upper;
      }
      UpperTextSnoc(s, k);
      assert s[..k + 1] == s[..k] + [s[k]];
      upper := upper + [c];
      k := k + 1;
    }
    assert s[..k] == s;
    ok := true;
  }

  /** When every text is valid the public constructor is the directory over the running starts and the joined texts. */
  lemma BuildWhenValid(texts: seq<string>, names: Option<seq<string>>)
    requires forall i :: 0 <= i < |texts| ==> IsDnaText(texts[i])
    ensures Build(texts, names) == match MakeDirectory(RunningStarts(Lengths(texts)), Lengths(texts), names)
                                   case Ok(ranges) => Ok(DnaStringSet(Concat(UpperAll(texts)), ranges))
                                   case Err(e) => Err(e)
  {
  }

  /** When text `i` is the first invalid one the public constructor reports it. */
  lemma BuildWhenInvalid(texts: seq<string>, names: Option<seq<string>>, i: nat)
    requires i < |texts| && !IsDnaText(texts[i])
    requires forall j :: 0 <= j < i ==> IsDnaText(texts[j])
    ensures Build(texts, names) == Err(NonDnaSequence(i))
  {
    var f := FirstRejected(texts, IsDnaText);
    assert f == Some(i) by {
      if f.Some? && f.value < i {
      }
    }
  }

  /** One more text extends the loop's running values. */
  lemma LoopStep(texts: seq<string>, i: nat, upper: string)
    requires i < |texts|
    requires upper == UpperText(texts[i])
    ensures Lengths(texts[..i + 1]) == Lengths(texts[..i]) + [|texts[i]|]
    ensures UpperAll(texts[..i + 1]) == UpperAll(texts[..i]) + [upper]
    ensures Concat(UpperAll(texts[..i + 1])) == Concat(UpperAll(texts[..i])) + upper
    ensures RunningStarts(Lengths(texts[..i + 1])) == RunningStarts(Lengths(texts[..i])) + [Sum(Lengths(texts[..i]))]
    ensures Sum(Lengths(texts[..i + 1])) == Sum(Lengths(texts[..i])) + |texts[i]|
  {
    assert Lengths(texts[..i + 1]) == Lengths(texts[..i]) + [|texts[i]|];
    assert UpperAll(texts[..i + 1]) == UpperAll(texts[..i]) + [upper];
    ConcatSnoc(UpperAll(texts[..i]), upper);
    RunningStartsSnoc(Lengths(texts[..i]), |texts[i]|);
    SumAppend(Lengths(texts[..i]), [|texts[i]|]);
  }

  /**
   * `create_dnastringset_pool`: the pool and directory for `texts`, or the
   * error naming the first text with a character whose upper-case form is
   * not a DNA letter. It computes the corrected constructor `Build` on every
   * input, the empty list included, and so agrees with the constructor as
   * written on every non-empty list without a trailing newline.
   */
  method CreatePool(texts: seq<string>, names: Option<seq<string>>) returns (r: Result<DnaStringSet>)
    ensures r == Build(texts, names)
    ensures |texts| == 0 && names.None? ==> r == Ok(DnaStringSet("", []))
    ensures |texts| > 0 && NoTrailingNewline(texts) ==> r == BuildAsWritten(texts, names)
  {
    BuildAgreement(texts, names);
    var pool: string := "";
    var starts: seq<nat> := [];
    var widths: seq<nat> := [];
    var current: nat := 0;
    var i := 0;
    while i < |texts|
      invariant 0 <= i <= |texts|
      invariant forall j :: 0 <= j < i ==> IsDnaText(texts[j])
      invariant widths == Lengths(texts[..i])
      invariant starts == RunningStarts(widths)
      invariant pool == Concat(UpperAll(texts[..i]))
      invariant current == Sum(widths)
    {
      var ok, upper := UpperChecked(texts[i]);
      if !ok {
        BuildWhenInvalid(texts, names, i);
        return Err(NonDnaSequence(i));
      }
      LoopStep(texts, i, upper);
      starts := starts + [current];
      widths := widths + [|texts[i]|];
      pool := pool + upper;
      current := current + |texts[i]|;
      i := i + 1;
    }
    assert texts[..i] == texts;
    BuildWhenValid(texts, names);
    r := match MakeDirectory(starts, widths, names)
         case Ok(ranges) => Ok(DnaStringSet(pool, ranges))
         case Err(e) => Err(e);
  }
}
