/**
 * The sequence collection in the "pool and ranges" layout: one pool holding
 * every member's bytes back to back, and a directory of (start, width, name)
 * records saying where each member lives. Sub-setting makes a view that keeps
 * the pool and replaces the directory.
 */
module DnaStringSets {
  import opened Results
  import opened Alphabet
  import opened Directory
  import PySeq
  import DnaStrings

  /** A collection: the shared pool and this collection's directory. */
  datatype DnaStringSet = DnaStringSet(pool: string, ranges: seq<Record>)

  /** The pool holds only DNA letters and every record lies inside it. */
  predicate Valid(s: DnaStringSet) {
    IsDnaData(s.pool) && WithinPool(s.ranges, |s.pool|)
  }

  /** `len(s)`: the number of records, which is also the length of the width column. */
  function Length(s: DnaStringSet): (n: int)
    ensures n == |Widths(s.ranges)|
  {
    |s.ranges|
  }

  /**
   * `s.width()`: one width per record; for records inside the pool, each is
   * the length of the member's text.
   */
  function Width(s: DnaStringSet): (ws: seq<nat>)
    ensures |ws| == |s.ranges|
    ensures WithinPool(s.ranges, |s.pool|) ==> forall i :: 0 <= i < |ws| ==> ws[i] == |Pieces(s.pool, s.ranges)[i]|
  {
    PiecesWithinPool(s.pool, s.ranges);
    Widths(s.ranges)
  }

  /** `"".join(parts)`. */
  function Concat(parts: seq<string>): string {
    if parts == [] then [] else parts[0] + Concat(parts[1..])
  }

  /** The length of each text. */
  function Lengths(texts: seq<string>): (ls: seq<nat>)
    ensures |ls| == |texts|
  {
    seq(|texts|, i requires 0 <= i < |texts| => |texts[i]|)
  }

  /** Each text upper-cased. */
  function UpperAll(texts: seq<string>): (us: seq<string>)
    ensures |us| == |texts|
  {
    seq(|texts|, i requires 0 <= i < |texts| => UpperText(texts[i]))
  }

  /** Joining two lists of parts joins their joins. */
  lemma {:induction false} ConcatAppend(a: seq<string>, b: seq<string>)
    ensures Concat(a + b) == Concat(a) + Concat(b)
  {
    if a == [] {
      assert a + b == b;
    } else {
      assert (a + b)[1..] == a[1..] + b;
      ConcatAppend(a[1..], b);
    }
  }

  /** A join is as long as its parts together. */
  lemma {:induction false} ConcatLength(parts: seq<string>)
    ensures |Concat(parts)| == Sum(Lengths(parts))
  {
    if parts != [] {
      assert Lengths(parts)[1..] == Lengths(parts[1..]);
      ConcatLength(parts[1..]);
    }
  }

  /** A join of stored data is stored data. */
  lemma {:induction false} ConcatDnaData(parts: seq<string>)
    requires forall i :: 0 <= i < |parts| ==> IsDnaData(parts[i])
    ensures IsDnaData(Concat(parts))
  {
    if parts != [] {
      ConcatDnaData(parts[1..]);
      assert IsDnaData(parts[0]);
    }
  }

  /**
   * Part `i` of a join sits at the sum of the earlier parts' lengths: the
   * prefix sums of the lengths locate every part exactly.
   */
  lemma ConcatPart(parts: seq<string>, i: nat)
    requires i < |parts|
    ensures Sum(Lengths(parts)[..i]) + |parts[i]| <= |Concat(parts)|
    ensures Concat(parts)[Sum(Lengths(parts)[..i]) .. Sum(Lengths(parts)[..i]) + |parts[i]|] == parts[i]
  {
    assert parts == parts[..i] + ([parts[i]] + parts[i + 1..]);
    ConcatAppend(parts[..i], [parts[i]] + parts[i + 1..]);
    ConcatAppend([parts[i]], parts[i + 1..]);
    assert Concat([parts[i]]) == parts[i] by {
      assert [parts[i]][1..] == [];
    }
    ConcatLength(parts[..i]);
    assert Lengths(parts[..i]) == Lengths(parts)[..i];
  }

  /** `pool[start:end]` for one record. */
  function Piece(pool: string, r: Record): string {
    PySeq.Slice(pool, Some(r.start), Some(End(r)))
  }

  /** A record inside the pool selects exactly its bytes. */
  lemma PieceWithinPool(pool: string, r: Record)
    requires End(r) <= |pool|
    ensures Piece(pool, r) == pool[r.start..End(r)]
  {
    PySeq.SliceHalfOpen(pool, r.start, End(r));
  }

  /** The members' texts, one per record in directory order. */
  function Pieces(pool: string, rs: seq<Record>): (ps: seq<string>)
    ensures |ps| == |rs|
  {
    seq(|rs|, i requires 0 <= i < |rs| => Piece(pool, rs[i]))
  }

  /** Records inside the pool select exactly their bytes. */
  lemma PiecesWithinPool(pool: string, rs: seq<Record>)
    ensures WithinPool(rs, |pool|) ==>
              forall i :: 0 <= i < |rs| ==> End(rs[i]) <= |pool| && Pieces(pool, rs)[i] == pool[rs[i].start..End(rs[i])]
  {
    if WithinPool(rs, |pool|) {
      forall i | 0 <= i < |rs| ensures End(rs[i]) <= |pool| && Pieces(pool, rs)[i] == pool[rs[i].start..End(rs[i])] {
        assert rs[i] in rs;
        PieceWithinPool(pool, rs[i]);
      }
    }
  }

  /**
   * `s.to_list()`: one text per record, in directory order. A record inside
   * the pool gives exactly its bytes, and a DNA pool gives DNA texts.
   */
  function ToList(s: DnaStringSet): (l: seq<string>)
    ensures |l| == Length(s)
    ensures WithinPool(s.ranges, |s.pool|) ==>
              forall i :: 0 <= i < |l| ==> End(s.ranges[i]) <= |s.pool| && l[i] == s.pool[s.ranges[i].start..End(s.ranges[i])]
    ensures IsDnaData(s.pool) ==> forall i :: 0 <= i < |l| ==> IsDnaData(l[i])
  {
    PiecesWithinPool(s.pool, s.ranges);
    PiecesDnaData(s.pool, s.ranges);
    Pieces(s.pool, s.ranges)
  }

  /** Every member of a valid collection is stored data. */
  lemma PiecesDnaData(pool: string, rs: seq<Record>)
    ensures IsDnaData(pool) ==> forall i :: 0 <= i < |rs| ==> IsDnaData(Pieces(pool, rs)[i])
  {
  }

  /**
   * Position of the first text the validator rejects, scanning in input
   * order as the constructor's loop does; `None` when all pass.
   */
  function FirstRejected(texts: seq<string>, accepts: string -> bool): (r: Option<nat>)
    ensures r.None? <==> forall i :: 0 <= i < |texts| ==> accepts(texts[i])
    ensures r.Some? ==> r.value < |texts| && !accepts(texts[r.value])
    ensures r.Some? ==> forall i :: 0 <= i < r.value ==> accepts(texts[i])
  {
    if texts == [] then None
    else if !accepts(texts[0]) then Some(0)
    else
      match FirstRejected(texts[1..], accepts)
      case None => None
      case Some(j) => Some(j + 1)
  }

  /** The shape every freshly built collection has. */
  lemma FreshShape(texts: seq<string>, ranges: seq<Record>)
    requires forall i :: 0 <= i < |texts| ==> IsDnaText(texts[i])
    requires Widths(ranges) == Lengths(texts)
    requires forall i :: 0 <= i < |ranges| ==> ranges[i].start == RunningStarts(Lengths(texts))[i]
    ensures Valid(DnaStringSet(Concat(UpperAll(texts)), ranges))
    ensures Tiles(ranges, |Concat(UpperAll(texts))|)
  {
    var ups := UpperAll(texts);
    forall i | 0 <= i < |ups| ensures IsDnaData(ups[i]) {
      UpperTextIsDnaData(texts[i]);
    }
    ConcatDnaData(ups);
    ConcatLength(ups);
    assert Lengths(ups) == Lengths(texts);
    TilesConsecutive(ranges, |Concat(ups)|);
  }

  /**
   * The public constructor: validate every text in order (the first
   * failure is reported and nothing is built), then join the upper-cased
   * texts into one pool and place each at the running sum of the earlier
   * widths.
   */
  function Build(texts: seq<string>, names: Option<seq<string>>): (r: Result<DnaStringSet>)
    ensures r.Ok? <==> (forall i :: 0 <= i < |texts| ==> IsDnaText(texts[i]))
                       && (names.Some? ==> |names.value| == |texts|)
    ensures r.Err? && r.error.NonDnaSequence? ==>
              && r.error.position < |texts|
              && !IsDnaText(texts[r.error.position])
              && forall j :: 0 <= j < r.error.position ==> IsDnaText(texts[j])
    ensures r.Ok? ==> Length(r.value) == |texts| && Width(r.value) == Lengths(texts)
    ensures r.Ok? ==> Valid(r.value) && Tiles(r.value.ranges, |r.value.pool|)
    ensures r.Ok? ==> forall i :: 0 <= i < |texts| ==>
                        r.value.ranges[i].name == if names.Some? then Some(names.value[i]) else None
  {
    match FirstRejected(texts, IsDnaText)
    case Some(i) => Err(NonDnaSequence(i))
    case None =>
      var widths := Lengths(texts);
      var ranges :- MakeDirectory(RunningStarts(widths), widths, names);
      FreshShape(texts, ranges);
      Ok(DnaStringSet(Concat(UpperAll(texts)), ranges))
  }

  /** The public constructor as written: the regular-expression validator, and starts `[0] + cumsum(widths[:-1])`. */
  function BuildAsWritten(texts: seq<string>, names: Option<seq<string>>): (r: Result<DnaStringSet>)
    ensures r.Ok? ==> (forall i :: 0 <= i < |texts| ==> RegexAccepts(texts[i])) && |texts| > 0
  {
    match FirstRejected(texts, RegexAccepts)
    case Some(i) => Err(NonDnaSequence(i))
    case None =>
      var widths := Lengths(texts);
      var ranges :- MakeDirectory(PyStarts(widths), widths, names);
      Ok(DnaStringSet(Concat(UpperAll(texts)), ranges))
  }

  /** As written, no texts give one start and no widths, which the directory refuses; the intended build is empty. */
  lemma BuildAsWrittenEmpty()
    ensures BuildAsWritten([], None) == Err(RangesLengthMismatch)
    ensures Build([], None) == Ok(DnaStringSet("", []))
  {
    PyStartsEmpty();
  }

  /** No text of the list ends in a newline. */
  predicate NoTrailingNewline(texts: seq<string>) {
    forall i :: 0 <= i < |texts| ==> |texts[i]| == 0 || texts[i][|texts[i]| - 1] != '\n'
  }

  /** On a non-empty list with no text ending in a newline, the constructor as written is the intended one. */
  lemma BuildAsWrittenAgrees(texts: seq<string>, names: Option<seq<string>>)
    requires |texts| > 0
    requires NoTrailingNewline(texts)
    ensures BuildAsWritten(texts, names) == Build(texts, names)
  {
    forall i | 0 <= i < |texts| ensures RegexAccepts(texts[i]) <==> IsDnaText(texts[i]) {
      RegexAgreesWithoutNewline(texts[i]);
    }
    var a := FirstRejected(texts, RegexAccepts);
    var b := FirstRejected(texts, IsDnaText);
    if a.Some? && b.Some? {
      assert a.value == b.value by {
        if a.value < b.value {
        } else if b.value < a.value {
        }
      }
    }
    PyStartsMatches(Lengths(texts));
  }

  /** Valid texts never end in a newline, so on a non-empty list of them the constructor as written is the intended one. */
  lemma BuildAsWrittenAgreesOnValid(texts: seq<string>, names: Option<seq<string>>)
    requires |texts| > 0
    requires forall i :: 0 <= i < |texts| ==> IsDnaText(texts[i])
    ensures BuildAsWritten(texts, names) == Build(texts, names)
  {
    forall i | 0 <= i < |texts| ensures |texts[i]| == 0 || texts[i][|texts[i]| - 1] != '\n' {
      if |texts[i]| > 0 {
        assert IsDnaText(texts[i]);
        assert texts[i][|texts[i]| - 1] in texts[i];
        assert !AcceptsChar('\n');
      }
    }
    BuildAsWrittenAgrees(texts, names);
  }

  /** A one-text list is rejected at position 0 exactly when its text is. */
  lemma FirstRejectedSingle(text: string, accepts: string -> bool)
    ensures FirstRejected([text], accepts) == if accepts(text) then None else Some(0)
  {
    assert [text][0] == text;
  }

  /** The pool of a one-text list is that text upper-cased. */
  lemma SingletonPool(text: string)
    ensures Concat(UpperAll([text])) == UpperText(text)
  {
    var u := UpperText(text);
    assert UpperAll([text]) == [u];
    assert [u][1..] == [];
  }

  /** The written validator accepts the one text "ACGT\n", the intended one rejects it, and its pool is not DNA data. */
  lemma NewlineValidation(texts: seq<string>)
    requires texts == ["ACGT\n"]
    ensures FirstRejected(texts, RegexAccepts).None?
    ensures FirstRejected(texts, IsDnaText) == Some(0)
    ensures !IsDnaData(Concat(UpperAll(texts)))
  {
    RegexAdmitsTrailingNewline();
    FirstRejectedSingle("ACGT\n", RegexAccepts);
    FirstRejectedSingle("ACGT\n", IsDnaText);
    SingletonPool("ACGT\n");
  }

  /** As written, a text with a trailing newline is accepted and its newline lands in the pool. */
  lemma BuildAsWrittenNewline(texts: seq<string>)
    requires texts == ["ACGT\n"]
    ensures BuildAsWritten(texts, None).Ok?
    ensures !Valid(BuildAsWritten(texts, None).value)
    ensures Build(texts, None) == Err(NonDnaSequence(0))
  {
    NewlineValidation(texts);
    var ws := Lengths(texts);
    PyStartsMatches(ws);
    assert MakeDirectory(PyStarts(ws), ws, None).Ok?;
  }

  /** A fresh collection lists exactly the upper-cased inputs. */
  lemma BuildToList(texts: seq<string>, names: Option<seq<string>>)
    requires Build(texts, names).Ok?
    ensures ToList(Build(texts, names).value) == UpperAll(texts)
  {
    var s := Build(texts, names).value;
    var ups := UpperAll(texts);
    assert Lengths(ups) == Lengths(texts);
    forall i | 0 <= i < |texts| ensures ToList(s)[i] == ups[i] {
      ConcatPart(ups, i);
      PieceWithinPool(s.pool, s.ranges[i]);
    }
  }

  /** The collection of the constructor's last branch: no pool bytes and no records. */
  function Empty(): DnaStringSet {
    DnaStringSet("", [])
  }

  /** The written and the intended constructor agree whenever the agreement lemma applies. */
  lemma BuildAgreement(texts: seq<string>, names: Option<seq<string>>)
    ensures |texts| > 0 && NoTrailingNewline(texts) ==> BuildAsWritten(texts, names) == Build(texts, names)
    ensures |texts| == 0 ==> BuildAsWritten(texts, names) == Err(RangesLengthMismatch)
  {
    if |texts| > 0 && NoTrailingNewline(texts) {
      BuildAsWrittenAgrees(texts, names);
    }
    if |texts| == 0 {
      PyStartsEmpty();
    }
  }

  /**
   * The constructor's dispatch, as written: given both an internal pool and
   * directory it makes a view on them without validating; otherwise a list
   * of texts goes to the public constructor; with neither it is empty.
   */
  function Init(texts: Option<seq<string>>, names: Option<seq<string>>,
                pool: Option<string>, ranges: Option<seq<Record>>): (r: Result<DnaStringSet>)
    ensures pool.Some? && ranges.Some? ==> r.Ok? && r.value.pool == pool.value && r.value.ranges == ranges.value
    ensures !(pool.Some? && ranges.Some?) && texts.None? ==> r.Ok? && Length(r.value) == 0 && Valid(r.value)
    ensures !(pool.Some? && ranges.Some?) && texts.Some? ==> r == BuildAsWritten(texts.value, names)
    ensures !(pool.Some? && ranges.Some?) && texts.Some? && |texts.value| > 0 && NoTrailingNewline(texts.value) ==>
              r == Build(texts.value, names)
    ensures !(pool.Some? && ranges.Some?) && texts == Some([]) ==> r == Err(RangesLengthMismatch)
  {
    if pool.Some? && ranges.Some? then Ok(DnaStringSet(pool.value, ranges.value))
    else if texts.Some? then
      BuildAgreement(texts.value, names);
      BuildAsWritten(texts.value, names)
    else Ok(Empty())
  }

  /**
   * `s[k]` for an integer: a negative key has the length added; the member
   * is copied out of the pool. A key outside `[-n, n)` is an index error.
   */
  function Get(s: DnaStringSet, k: int): (r: Result<DnaStrings.DnaString>)
    ensures r.Ok? <==> -Length(s) <= k < Length(s)
    ensures r.Err? ==> r.error == IndexOutOfRange(k)
    ensures r.Ok? ==> r.value.data == ToList(s)[PySeq.Wrap(k, Length(s))]
    ensures r.Ok? && Valid(s) ==> DnaStrings.Valid(r.value)
  {
    var j := PySeq.Wrap(k, Length(s));
    if 0 <= j < Length(s) then Ok(DnaStrings.DnaString(Piece(s.pool, s.ranges[j])))
    else Err(IndexOutOfRange(k))
  }

  /** On a fresh collection, member `k` is the upper-cased input `k`. */
  lemma BuildGet(texts: seq<string>, names: Option<seq<string>>, k: int)
    requires Build(texts, names).Ok?
    requires -|texts| <= k < |texts|
    ensures Get(Build(texts, names).value, k).Ok?
    ensures Get(Build(texts, names).value, k).value.data == UpperText(texts[PySeq.Wrap(k, |texts|)])
  {
    BuildToList(texts, names);
  }

  /** Selection by a list of positions: a view on the same pool whose record `j` is the record at `indices[j]`. */
  function SelectList(s: DnaStringSet, indices: seq<int>): (r: Result<DnaStringSet>)
    ensures r.Ok? <==> forall j :: 0 <= j < |indices| ==> -Length(s) <= indices[j] < Length(s)
    ensures r.Ok? ==> r.value.pool == s.pool && Length(r.value) == |indices|
    ensures r.Ok? ==> forall j :: 0 <= j < |indices| ==> r.value.ranges[j] == s.ranges[PySeq.Wrap(indices[j], Length(s))]
    ensures r.Ok? ==> forall j :: 0 <= j < |indices| && -Length(s) <= indices[j] < Length(s) ==>
                        ToList(r.value)[j] == ToList(s)[PySeq.Wrap(indices[j], Length(s))]
    ensures r.Ok? && Valid(s) ==> Valid(r.value)
  {
    var ranges :- SelectPositions(s.ranges, indices);
    SelectPositionsFromSource(s.ranges, indices);
    Ok(DnaStringSet(s.pool, ranges))
  }

  /** Selection by a slice: a view on the same pool that lists the slice of the source's members. */
  function SelectRange(s: DnaStringSet, start: Option<int>, stop: Option<int>): (r: DnaStringSet)
    ensures r.pool == s.pool
    ensures r.ranges == PySeq.Slice(s.ranges, start, stop)
    ensures ToList(r) == PySeq.Slice(ToList(s), start, stop)
    ensures Valid(s) ==> Valid(r)
    ensures Consecutive(s.ranges) ==> Consecutive(r.ranges)
  {
    PySeq.SliceMap(s.ranges, (rec: Record) => Piece(s.pool, rec), ToList(s), start, stop);
    SliceConsecutive(s.ranges, start, stop);
    DnaStringSet(s.pool, PySeq.Slice(s.ranges, start, stop))
  }

  /** The key of `s[key]`. */
  datatype Selector =
    | SingleIndex(index: int)
    | IndexList(indices: seq<int>)
    | ContiguousRange(start: Option<int>, stop: Option<int>)

  /** What `s[key]` returns: a copied member, or a view. */
  datatype Item = Single(member: DnaStrings.DnaString) | View(subset: DnaStringSet)

  /**
   * `s[key]`: an integer copies one member out; a list or a slice makes a
   * view that shares the pool. No selection changes the pool or breaks validity.
   */
  function GetItem(s: DnaStringSet, key: Selector): (r: Result<Item>)
    ensures r.Ok? ==> (r.value.Single? <==> key.SingleIndex?)
    ensures r.Ok? && r.value.View? ==> r.value.subset.pool == s.pool
    ensures r.Ok? && r.value.View? && Valid(s) ==> Valid(r.value.subset)
    ensures r.Ok? && r.value.Single? && Valid(s) ==> DnaStrings.Valid(r.value.member)
    ensures key.SingleIndex? ==> (r.Ok? <==> -Length(s) <= key.index < Length(s))
    ensures key.SingleIndex? && r.Ok? ==> r.value.member.data == ToList(s)[PySeq.Wrap(key.index, Length(s))]
    ensures key.IndexList? ==> (r.Ok? <==> forall j :: 0 <= j < |key.indices| ==> -Length(s) <= key.indices[j] < Length(s))
    ensures key.IndexList? && r.Ok? ==> r.value.View? && Length(r.value.subset) == |key.indices|
    ensures key.IndexList? && r.Ok? ==>
              forall j :: 0 <= j < |key.indices| ==>
                && r.value.subset.ranges[j] == s.ranges[PySeq.Wrap(key.indices[j], Length(s))]
                && ToList(r.value.subset)[j] == ToList(s)[PySeq.Wrap(key.indices[j], Length(s))]
    ensures key.ContiguousRange? ==> r.Ok? && r.value.View?
                                     && ToList(r.value.subset) == PySeq.Slice(ToList(s), key.start, key.stop)
  {
    match key
    case SingleIndex(k) =>
      var x :- Get(s, k);
      Ok(Single(x))
    case IndexList(indices) =>
      var v :- SelectList(s, indices);
      Ok(View(v))
    case ContiguousRange(start, stop) =>
      Ok(View(SelectRange(s, start, stop)))
  }

  /** A consecutive run of records spans the total width, and that span of the pool is the join of the members. */
  lemma {:induction false} ConsecutiveSpan(pool: string, rs: seq<Record>)
    requires |rs| > 0
    requires Consecutive(rs)
    requires WithinPool(rs, |pool|)
    ensures rs[0].start <= End(rs[|rs| - 1]) <= |pool|
    ensures End(rs[|rs| - 1]) - rs[0].start == Sum(Widths(rs))
    ensures pool[rs[0].start..End(rs[|rs| - 1])] == Concat(Pieces(pool, rs))
  {
    assert rs[0] in rs;
    assert rs[|rs| - 1] in rs;
    PieceWithinPool(pool, rs[0]);
    assert Widths(rs)[1..] == Widths(rs[1..]);
    assert Pieces(pool, rs)[1..] == Pieces(pool, rs[1..]);
    if |rs| == 1 {
      assert Pieces(pool, rs)[1..] == [];
    } else {
      var rest := rs[1..];
      assert Consecutive(rest) by {
        forall i | 0 < i < |rest| ensures rest[i].start == End(rest[i - 1]) {
          assert rest[i] == rs[i + 1];
        }
      }
      assert rest[0].start == End(rs[0]);
      ConsecutiveSpan(pool, rest);
      assert rest[|rest| - 1] == rs[|rs| - 1];
      assert pool[rs[0].start..End(rs[|rs| - 1])]
          == pool[rs[0].start..End(rs[0])] + pool[rest[0].start..End(rest[|rest| - 1])];
    }
  }

  /** The first start of a non-empty directory. */
  function FirstStart(s: DnaStringSet): nat
    requires Length(s) > 0
  {
    s.ranges[0].start
  }

  /** The last end of a non-empty directory. */
  function LastEnd(s: DnaStringSet): nat
    requires Length(s) > 0
  {
    End(s.ranges[Length(s) - 1])
  }

  /** For consecutive records inside the pool, the facts `ConsecutiveSpan` states. */
  lemma ConsecutiveSpanWhen(pool: string, rs: seq<Record>)
    requires |rs| > 0
    ensures Consecutive(rs) && WithinPool(rs, |pool|) ==>
              && rs[0].start <= End(rs[|rs| - 1]) <= |pool|
              && End(rs[|rs| - 1]) - rs[0].start == Sum(Widths(rs))
              && pool[rs[0].start..End(rs[|rs| - 1])] == Concat(Pieces(pool, rs))
  {
    if Consecutive(rs) && WithinPool(rs, |pool|) {
      ConsecutiveSpan(pool, rs);
    }
  }

  /**
   * The fast-path test as written: the span from the first start to the last
   * end equals the total width. Consecutive records always pass it.
   */
  function SpanMatchesWidth(s: DnaStringSet): (b: bool)
    requires Length(s) > 0
    ensures Consecutive(s.ranges) && WithinPool(s.ranges, |s.pool|) ==> b
  {
    ConsecutiveSpanWhen(s.pool, s.ranges);
    LastEnd(s) - FirstStart(s) == Sum(Width(s))
  }

  /**
   * `s.unlist()` as written: empty for no members; the pool span from the
   * first start to the last end when that span is as long as all widths
   * together; otherwise a type error, because the bytes separator is asked
   * to join the decoded texts `to_list()` returns.
   */
  function UnlistAsWritten(s: DnaStringSet): (r: Result<DnaStrings.DnaString>)
    ensures Length(s) == 0 ==> r == Ok(DnaStrings.DnaString([]))
    ensures Length(s) > 0 ==> (r.Ok? <==> SpanMatchesWidth(s))
    ensures r.Err? ==> r.error == TextJoinedAsBytes
    ensures Length(s) > 0 && Consecutive(s.ranges) && WithinPool(s.ranges, |s.pool|) ==>
              r.Ok? && r.value.data == Concat(ToList(s))
  {
    if Length(s) == 0 then Ok(DnaStrings.DnaString([]))
    else
      UnlistSpanFacts(s);
      if SpanMatchesWidth(s) then
        Ok(DnaStrings.DnaString(PySeq.Slice(s.pool, Some(FirstStart(s)), Some(LastEnd(s)))))
      else Err(TextJoinedAsBytes)
  }

  /** What both versions of `unlist` rely on: the fast path's span is the join, and a DNA pool joins to DNA data. */
  lemma UnlistSpanFacts(s: DnaStringSet)
    ensures Length(s) > 0 && Consecutive(s.ranges) && WithinPool(s.ranges, |s.pool|) ==>
              PySeq.Slice(s.pool, Some(FirstStart(s)), Some(LastEnd(s))) == Concat(ToList(s))
    ensures Valid(s) ==> IsDnaData(Concat(ToList(s)))
  {
    if Length(s) > 0 && Consecutive(s.ranges) && WithinPool(s.ranges, |s.pool|) {
      ConsecutiveSpan(s.pool, s.ranges);
      PySeq.SliceHalfOpen(s.pool, FirstStart(s), LastEnd(s));
    }
    if Valid(s) {
      ConcatDnaData(ToList(s));
    }
  }

  /**
   * `s.unlist()` as intended: the fast path taken only for consecutive
   * records, and the slow path joining the members' bytes, so both paths
   * give the join of the members.
   */
  function Unlist(s: DnaStringSet): (r: DnaStrings.DnaString)
    ensures r.data == Concat(ToList(s))
    ensures Valid(s) ==> DnaStrings.Valid(r)
  {
    UnlistSpanFacts(s);
    if Length(s) == 0 then DnaStrings.DnaString([])
    else if Consecutive(s.ranges) && WithinPool(s.ranges, |s.pool|) then
      DnaStrings.DnaString(PySeq.Slice(s.pool, Some(FirstStart(s)), Some(LastEnd(s))))
    else
      DnaStrings.DnaString(Concat(ToList(s)))
  }

  /** How many members `repr` lists in full; more than this and the middle is elided. */
  const MaxShow: nat := 10

  /** How many members `repr` lists at each end when it elides the middle. */
  const HalfShow: nat := 5

  /**
   * One line of `repr`: a member, or the count of members left out. A
   * member's line carries its 0-based position and the 1-based number
   * `repr` prints.
   */
  datatype DisplayLine = Entry(position: nat, number: nat, width: nat, snippet: string, name: string) | Omitted(count: nat)

  /** A member's text as `repr` shows it: whole up to 18 bytes, else the first 7, "..." and the last 8. */
  function Snippet(x: DnaStrings.DnaString, w: nat): (r: string)
    ensures w <= 18 ==> r == x.data
    ensures w > 18 && DnaStrings.Length(x) == w ==>
              |r| == 18 && r[..7] == x.data[..7] && r[7..10] == "..." && r[10..] == x.data[w - 8..]
  {
    if w > 18 then
      PySeq.SlicePrefix(x.data, 7);
      PySeq.SliceSuffix(x.data, 8);
      DnaStrings.ToText(DnaStrings.GetItem(x, DnaStrings.Range(None, Some(7)))) + "..."
        + DnaStrings.ToText(DnaStrings.GetItem(x, DnaStrings.Range(Some(-8), None)))
    else
      DnaStrings.ToText(x)
  }

  /** A name as `repr` shows it: whole up to 10 characters, else the first 7 and "...". */
  function ShortName(name: string): (r: string)
    ensures |name| <= 10 ==> r == name
    ensures |name| > 10 ==> |r| == 10 && r[..7] == name[..7] && r[7..] == "..."
  {
    if |name| > 10 then name[..7] + "..." else name
  }

  /**
   * The `repr` line of member `i`: the number `i + 1`, its width, its
   * snippet and its shortened name (empty when unnamed).
   */
  function EntryLine(s: DnaStringSet, i: nat): (l: DisplayLine)
    requires i < Length(s)
    ensures l.Entry? && l.position == i && ShowsMember(s, l)
  {
    MemberLine(s, i)
  }

  /** The fields of member `i`'s line, without the facts about them. */
  function MemberLine(s: DnaStringSet, i: nat): DisplayLine
    requires i < Length(s)
  {
    var w := s.ranges[i].width;
    Entry(i, i + 1, w, Snippet(Get(s, i).value, w), ShortName(s.ranges[i].name.GetOr("")))
  }

  /**
   * A listed line names an existing member, counting from 1 in its number,
   * and carries that member's width, the snippet of its bytes and its
   * shortened name.
   */
  predicate ShowsMember(s: DnaStringSet, l: DisplayLine) {
    l.Entry? ==>
      && l.position < Length(s) && l.number == l.position + 1 && l.width == s.ranges[l.position].width
      && l.snippet == Snippet(DnaStrings.DnaString(Piece(s.pool, s.ranges[l.position])), l.width)
      && l.name == ShortName(s.ranges[l.position].name.GetOr(""))
  }

  /** The `repr` lines of `count` members from position `from` on. */
  function EntryLines(s: DnaStringSet, from: nat, count: nat): (lines: seq<DisplayLine>)
    requires from + count <= Length(s)
    ensures |lines| == count
    ensures forall i :: 0 <= i < count ==> lines[i].Entry? && lines[i].position == from + i
    ensures forall i :: 0 <= i < count ==> ShowsMember(s, lines[i])
  {
    var lines := seq(count, i requires 0 <= i < count => MemberLine(s, from + i));
    EntryLinesShow(s, from, lines);
    lines
  }

  /** Lines made by `MemberLine` from position `from` on each show their own member. */
  lemma EntryLinesShow(s: DnaStringSet, from: nat, lines: seq<DisplayLine>)
    requires from + |lines| <= Length(s)
    requires forall i :: 0 <= i < |lines| ==> lines[i] == MemberLine(s, from + i)
    ensures forall i :: 0 <= i < |lines| ==> lines[i].Entry? && lines[i].position == from + i
    ensures forall i :: 0 <= i < |lines| ==> ShowsMember(s, lines[i])
  {
    forall i | 0 <= i < |lines| ensures lines[i].Entry? && lines[i].position == from + i && ShowsMember(s, lines[i]) {
      var l := EntryLine(s, from + i);
      assert lines[i] == l;
    }
  }

  /** The elided form of `repr`: the first 5 lines, the count of those left out, the last 5 lines. */
  function ElidedLines(s: DnaStringSet): (lines: seq<DisplayLine>)
    requires Length(s) > MaxShow
    ensures |lines| == 2 * HalfShow + 1
    ensures lines[..HalfShow] == EntryLines(s, 0, HalfShow)
    ensures lines[HalfShow] == Omitted(Length(s) - MaxShow)
    ensures lines[HalfShow + 1..] == EntryLines(s, Length(s) - HalfShow, HalfShow)
  {
    EntryLines(s, 0, HalfShow) + [Omitted(Length(s) - 2 * HalfShow)] + EntryLines(s, Length(s) - HalfShow, HalfShow)
  }

  /**
   * The lines of `repr` after the header: every member when there are at
   * most 10; otherwise the first 5, a line counting the `n - 10` left out,
   * and the last 5.
   */
  function DisplayLines(s: DnaStringSet): (lines: seq<DisplayLine>)
    ensures |lines| == if Length(s) <= MaxShow then Length(s) else 2 * HalfShow + 1
    ensures Length(s) <= MaxShow ==>
              forall i :: 0 <= i < Length(s) ==> lines[i].Entry? && lines[i].position == i
    ensures Length(s) > MaxShow ==>
              && lines[HalfShow] == Omitted(Length(s) - MaxShow)
              && var head := lines[..HalfShow];
                 forall i :: 0 <= i < HalfShow ==> head[i].Entry? && head[i].position == i
    ensures Length(s) > MaxShow ==>
              var tail := lines[HalfShow + 1..];
              forall i :: 0 <= i < HalfShow ==> tail[i].Entry? && tail[i].position == Length(s) - HalfShow + i
    ensures forall i :: 0 <= i < |lines| ==> ShowsMember(s, lines[i])
  {
    if Length(s) <= MaxShow then EntryLines(s, 0, Length(s)) else ElidedLines(s)
  }

  /** How many members a run of `repr` lines accounts for: one per listed member, plus each omission count. */
  function Accounted(lines: seq<DisplayLine>): nat {
    if |lines| == 0 then 0
    else (if lines[0].Entry? then 1 else lines[0].count) + Accounted(lines[1..])
  }

  lemma {:induction false} AccountedAppend(a: seq<DisplayLine>, b: seq<DisplayLine>)
    ensures Accounted(a + b) == Accounted(a) + Accounted(b)
  {
    if |a| == 0 {
      assert a + b == b;
    } else {
      assert (a + b)[1..] == a[1..] + b;
      AccountedAppend(a[1..], b);
    }
  }

  lemma {:induction false} AccountedEntries(lines: seq<DisplayLine>)
    requires forall i :: 0 <= i < |lines| ==> lines[i].Entry?
    ensures Accounted(lines) == |lines|
  {
    if |lines| > 0 {
      AccountedEntries(lines[1..]);
    }
  }

  /**
   * `repr` accounts for every member exactly once: the listed members and
   * the omission count add up to the collection's length, and no member is
   * listed twice.
   */
  lemma DisplayAccountsForAll(s: DnaStringSet)
    ensures Accounted(DisplayLines(s)) == Length(s)
    ensures forall i, j :: 0 <= i < j < |DisplayLines(s)| && DisplayLines(s)[i].Entry? && DisplayLines(s)[j].Entry? ==>
              DisplayLines(s)[i].position < DisplayLines(s)[j].position
  {
    AccountsForShape(DisplayLines(s), Length(s));
  }

  /** The accounting of `DisplayAccountsForAll` for any run of lines with the shape `DisplayLines` promises. */
  lemma AccountsForShape(lines: seq<DisplayLine>, n: nat)
    requires |lines| == if n <= MaxShow then n else 2 * HalfShow + 1
    requires n <= MaxShow ==> forall i :: 0 <= i < n ==> lines[i].Entry? && lines[i].position == i
    requires n > MaxShow ==>
               && lines[HalfShow] == Omitted(n - MaxShow)
               && var head := lines[..HalfShow];
                  forall i :: 0 <= i < HalfShow ==> head[i].Entry? && head[i].position == i
    requires n > MaxShow ==>
               var tail := lines[HalfShow + 1..];
               forall i :: 0 <= i < HalfShow ==> tail[i].Entry? && tail[i].position == n - HalfShow + i
    ensures Accounted(lines) == n
    ensures forall i, j :: 0 <= i < j < |lines| && lines[i].Entry? && lines[j].Entry? ==>
              lines[i].position < lines[j].position
  {
    if n <= MaxShow {
      AccountedEntries(lines);
    } else {
      var head := lines[..HalfShow];
      var tail := lines[HalfShow + 1..];
      assert lines == head + [lines[HalfShow]] + tail;
      AccountedEntries(head);
      AccountedEntries(tail);
      AccountedAppend(head + [lines[HalfShow]], tail);
      AccountedAppend(head, [lines[HalfShow]]);
      assert Accounted([lines[HalfShow]]) == n - MaxShow;
      forall i, j | 0 <= i < j < |lines| && lines[i].Entry? && lines[j].Entry?
        ensures lines[i].position < lines[j].position
      {
        if j < HalfShow {
          assert lines[i] == head[i] && lines[j] == head[j];
        } else if i < HalfShow {
          assert lines[i] == head[i] && lines[j] == tail[j - HalfShow - 1];
        } else {
          assert lines[i] == tail[i - HalfShow - 1] && lines[j] == tail[j - HalfShow - 1];
        }
      }
    }
  }
}
