/** A single DNA sequence: validated on construction from text, stored upper-cased. */
module DnaStrings {
  import opened Results
  import opened Alphabet
  import PySeq

  /**
   * The stored bytes of one sequence. Building the value directly is the
   * raw-bytes constructor, which does not validate; `Valid` is what every
   * caller of it has to establish.
   */
  datatype DnaString = DnaString(data: string)

  /** Every stored character is an upper-case DNA letter. */
  predicate Valid(x: DnaString) {
    IsDnaData(x.data)
  }

  /** `len(x)`: the number of stored bytes, which is also the length of `str(x)`. */
  function Length(x: DnaString): (n: int)
    ensures n == |ToText(x)|
  {
    |x.data|
  }

  /**
   * `str(x)`: the bytes decoded as ASCII text. The text of a valid sequence
   * passes the validator.
   */
  function ToText(x: DnaString): (t: string)
    ensures Valid(x) ==> IsDnaText(t)
  {
    StoredTextFacts(x.data);
    x.data
  }

  /** Stored data is valid text. */
  lemma StoredTextFacts(d: string)
    ensures IsDnaData(d) ==> IsDnaText(d)
  {
    if IsDnaData(d) {
      DnaDataIsDnaText(d);
    }
  }

  /** `x == y` for two sequences: byte-exact, so it is equality of the values. */
  function Equals(x: DnaString, y: DnaString): (b: bool)
    ensures b <==> x == y
    ensures b <==> Length(x) == Length(y) && forall i :: 0 <= i < Length(x) ==> x.data[i] == y.data[i]
  {
    x.data == y.data
  }

  /**
   * `x == t` for a text `t`: the text is upper-cased first, so the two are
   * equal when they agree character by character, ignoring the text's case.
   */
  function EqualsText(x: DnaString, t: string): (b: bool)
    ensures b <==> |t| == Length(x) && forall i :: 0 <= i < |t| ==> Upper(t[i]) == x.data[i]
  {
    ToText(x) == UpperText(t)
  }

  /** Construction from text, with the intended validator. */
  function FromText(s: string): (r: Result<DnaString>)
    ensures r.Ok? <==> IsDnaText(s)
    ensures r.Err? ==> r.error == NonDnaText
    ensures r.Ok? ==> Valid(r.value) && Length(r.value) == |s| && EqualsText(r.value, s)
  {
    if IsDnaText(s) then
      UpperTextIsDnaData(s);
      Ok(DnaString(UpperText(s)))
    else
      Err(NonDnaText)
  }

  /** Construction from text as written, where the validator is the regular expression. */
  function FromTextAsWritten(s: string): (r: Result<DnaString>)
    ensures r.Ok? <==> RegexAccepts(s)
    ensures r.Ok? ==> Length(r.value) == |s| && EqualsText(r.value, s)
  {
    if RegexAccepts(s) then Ok(DnaString(UpperText(s))) else Err(NonDnaText)
  }

  /** The two constructors differ only on text ending in a newline. */
  lemma FromTextAsWrittenAgrees(s: string)
    requires |s| == 0 || s[|s| - 1] != '\n'
    ensures FromTextAsWritten(s) == FromText(s)
  {
    RegexAgreesWithoutNewline(s);
  }

  /** As written, "ACGT\n" is accepted and stored with its newline, breaking the alphabet invariant. */
  lemma TrailingNewlineStored()
    ensures FromTextAsWritten("ACGT\n").Ok?
    ensures Length(FromTextAsWritten("ACGT\n").value) == 5
    ensures !Valid(FromTextAsWritten("ACGT\n").value)
    ensures FromText("ACGT\n") == Err(NonDnaText)
  {
    RegexAdmitsTrailingNewline();
  }

  /** Text round trip: the text of a valid sequence constructs that same sequence. */
  lemma TextRoundTrip(x: DnaString)
    requires Valid(x)
    ensures FromText(ToText(x)) == Ok(x)
  {
    DnaDataIsDnaText(x.data);
    UpperTextFixesDnaData(x.data);
  }

  /** Construction ignores case: texts with the same upper-case form build equal sequences. */
  lemma CaseInsensitiveConstruction(s: string, t: string)
    requires IsDnaText(s)
    requires UpperText(s) == UpperText(t)
    ensures FromText(t).Ok?
    ensures Equals(FromText(s).value, FromText(t).value)
  {
    UpperTextIsDnaData(s);
    UpperTextIsDnaData(t);
  }

  /** `DnaString("acgt") == DnaString("ACGT")`. */
  lemma LowerAndUpperEqual()
    ensures FromText("acgt").Ok? && FromText("ACGT").Ok?
    ensures Equals(FromText("acgt").value, FromText("ACGT").value)
    ensures FromText("ACGX") == Err(NonDnaText)
  {
    assert "ACGX"[3] == 'X';
    assert 'X' in "ACGX";
    assert !AcceptsChar('X');
  }

  /** A valid sequence equals a text exactly when constructing from that text gives the sequence. */
  lemma EqualsTextConstructs(x: DnaString, t: string)
    requires Valid(x)
    ensures EqualsText(x, t) <==> FromText(t) == Ok(x)
  {
    if EqualsText(x, t) {
      assert UpperText(t) == x.data;
      UpperTextIsDnaData(t);
    }
  }

  /** The key of `x[key]`: an integer or a half-open slice. */
  datatype Key = At(index: int) | Range(start: Option<int>, stop: Option<int>)

  /**
   * Integer indexing as written: a negative key has the length added once,
   * then the one-byte slice `data[key:key+1]` is taken, which Python wraps
   * again if the key is still negative.
   */
  function IndexAsWritten(x: DnaString, k: int): (r: DnaString)
    ensures Length(r) <= 1
    ensures Valid(x) ==> Valid(r)
  {
    var j := PySeq.Wrap(k, Length(x));
    DnaString(PySeq.Slice(x.data, Some(j), Some(j + 1)))
  }

  /**
   * Integer indexing as intended: a key in `[-n, n)` gives the one byte it
   * names, counting from the end when negative; any other key gives the
   * empty sequence.
   */
  function Index(x: DnaString, k: int): (r: DnaString)
    ensures -Length(x) <= k < Length(x) ==> r.data == [x.data[PySeq.Wrap(k, Length(x))]]
    ensures !(-Length(x) <= k < Length(x)) ==> r.data == []
  {
    var j := PySeq.Wrap(k, Length(x));
    if j < 0 then DnaString([])
    else DnaString(PySeq.Slice(x.data, Some(j), Some(j + 1)))
  }

  /** The two agree on every key except those below `-n - 1`. */
  lemma IndexAsWrittenAgrees(x: DnaString, k: int)
    requires k >= -Length(x) - 1
    ensures IndexAsWritten(x, k) == Index(x, k)
  {
  }

  /** As written, a key in `[-2n, -n-2]` wraps twice and returns a byte instead of nothing. */
  lemma IndexWrapsTwice(x: DnaString, k: int)
    requires -2 * Length(x) <= k <= -Length(x) - 2
    ensures IndexAsWritten(x, k).data == [x.data[k + 2 * Length(x)]]
    ensures Index(x, k).data == []
  {
  }

  /** Below `-2n` both slice bounds clamp to the front, so even as written the key selects nothing. */
  lemma IndexBelowDoubleWrap(x: DnaString, k: int)
    requires k < -2 * Length(x)
    ensures IndexAsWritten(x, k).data == []
    ensures IndexAsWritten(x, k) == Index(x, k)
  {
  }

  /** `DnaString("ACGT")[-6]` is "G" as written. */
  lemma IndexWrapsTwiceExample()
    ensures IndexAsWritten(DnaString("ACGT"), -6).data == "G"
    ensures Index(DnaString("ACGT"), -6).data == ""
  {
    IndexWrapsTwice(DnaString("ACGT"), -6);
  }

  /**
   * `x[key]`, with the integer branch as written. The result is built from
   * bytes of `x` without validation; the contract shows that this is sound:
   * the result is again valid.
   */
  function GetItem(x: DnaString, key: Key): (r: DnaString)
    ensures Length(r) <= Length(x)
    ensures forall c :: c in r.data ==> c in x.data
    ensures Valid(x) ==> Valid(r)
    ensures key.At? && -Length(x) <= key.index < Length(x) ==>
              r.data == [x.data[PySeq.Wrap(key.index, Length(x))]]
    ensures key.At? && -2 * Length(x) <= key.index <= -Length(x) - 2 ==>
              r.data == [x.data[key.index + 2 * Length(x)]]
    ensures key.At? && (key.index >= Length(x) || key.index == -Length(x) - 1 || key.index < -2 * Length(x)) ==>
              r.data == []
    ensures key.Range? && key.start.Some? && key.stop.Some? && 0 <= key.start.value <= key.stop.value <= Length(x) ==>
              r.data == x.data[key.start.value..key.stop.value]
  {
    match key
    case At(k) => IndexAsWritten(x, k)
    case Range(start, stop) => DnaString(PySeq.Slice(x.data, start, stop))
  }

  /** A half-open range `[a, b)` inside the sequence returns exactly `data[a..b]`. */
  lemma GetItemHalfOpen(x: DnaString, a: int, b: int)
    requires 0 <= a <= b <= Length(x)
    ensures GetItem(x, Range(Some(a), Some(b))).data == x.data[a..b]
  {
    PySeq.SliceHalfOpen(x.data, a, b);
  }

  /** `DnaString("ACGTACGT")[2:5] == "GTA"`. */
  lemma GetItemExample()
    ensures FromText("ACGTACGT").Ok?
    ensures GetItem(FromText("ACGTACGT").value, Range(Some(2), Some(5))).data == "GTA"
  {
    GetItemHalfOpen(FromText("ACGTACGT").value, 2, 5);
  }

  /** `bytes.translate` with the complement table. */
  function ComplementText(d: string): (r: string)
    ensures |r| == |d|
    ensures forall i :: 0 <= i < |d| ==> r[i] == Complement(d[i])
  {
    if d == [] then [] else [Complement(d[0])] + ComplementText(d[1..])
  }

  /** `d[::-1]`. */
  function Reverse<T>(d: seq<T>): (r: seq<T>)
    ensures |r| == |d|
    ensures forall i :: 0 <= i < |d| ==> r[i] == d[|d| - 1 - i]
  {
    if d == [] then [] else Reverse(d[1..]) + [d[0]]
  }

  /** The reverse complement: complement every byte, then reverse. */
  function ReverseComplement(x: DnaString): (r: DnaString)
    ensures Length(r) == Length(x)
    ensures forall i :: 0 <= i < Length(x) ==> r.data[i] == Complement(x.data[Length(x) - 1 - i])
  {
    DnaString(Reverse(ComplementText(x.data)))
  }

  /** The reverse complement of valid data is valid, and even lower-case raw bytes come out upper-case. */
  lemma ReverseComplementValid(x: DnaString)
    requires IsDnaText(x.data)
    ensures Valid(ReverseComplement(x))
  {
    var r := ReverseComplement(x);
    var n := Length(x);
    forall c | c in r.data ensures IsDnaLetter(c) {
      var i :| 0 <= i < n && r.data[i] == c;
      assert x.data[n - 1 - i] in x.data;
      ComplementIgnoresCase(x.data[n - 1 - i]);
    }
  }

  /** On valid data the reverse complement is an involution. */
  lemma ReverseComplementInvolution(x: DnaString)
    requires Valid(x)
    ensures Valid(ReverseComplement(x))
    ensures ReverseComplement(ReverseComplement(x)) == x
  {
    DnaDataIsDnaText(x.data);
    ReverseComplementValid(x);
    var n := Length(x);
    var rr := ReverseComplement(ReverseComplement(x));
    forall i | 0 <= i < n ensures rr.data[i] == x.data[i] {
      assert x.data[i] in x.data;
      ComplementInvolution(x.data[i]);
    }
  }

  /** "ACGT" is its own reverse complement. */
  lemma ReverseComplementPalindrome(x: DnaString)
    requires x.data == "ACGT"
    ensures ReverseComplement(x).data == "ACGT"
  {
    BasePairs();
    var r := ReverseComplement(x);
    assert r.data[0] == 'A' && r.data[1] == 'C' && r.data[2] == 'G' && r.data[3] == 'T';
  }

  /** "AATTGGCC" reverse-complements to "GGCCAATT". */
  lemma ReverseComplementExample(x: DnaString)
    requires x.data == "AATTGGCC"
    ensures ReverseComplement(x).data == "GGCCAATT"
  {
    ReversedComplementsOfExample(x, ReverseComplement(x));
  }

  /** Any sequence holding the complements of "AATTGGCC" back to front is "GGCCAATT". */
  lemma ReversedComplementsOfExample(x: DnaString, r: DnaString)
    requires x.data == "AATTGGCC"
    requires Length(r) == Length(x)
    requires forall i :: 0 <= i < Length(x) ==> r.data[i] == Complement(x.data[Length(x) - 1 - i])
    ensures r.data == "GGCCAATT"
  {
    BasePairs();
    assert r.data[0] == 'G' && r.data[1] == 'G' && r.data[2] == 'C' && r.data[3] == 'C';
    assert r.data[4] == 'A' && r.data[5] == 'A' && r.data[6] == 'T' && r.data[7] == 'T';
  }

  /**
   * `repr`'s preview: the whole text up to 20 bytes, otherwise the first
   * 10 bytes, "..." and the last 10 bytes.
   */
  function Preview(x: DnaString): (p: string)
    ensures Length(x) <= 20 ==> p == x.data
    ensures Length(x) > 20 ==> |p| == 23 && p[..10] == x.data[..10] && p[10..13] == "..."
                               && p[13..] == x.data[Length(x) - 10..]
  {
    if Length(x) > 20 then
      PySeq.SlicePrefix(x.data, 10);
      PySeq.SliceSuffix(x.data, 10);
      ToText(GetItem(x, Range(None, Some(10)))) + "..." + ToText(GetItem(x, Range(Some(-10), None)))
    else
      ToText(x)
  }
}
