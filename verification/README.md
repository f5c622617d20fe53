# DNA strings in a pool-and-ranges layout

This project models the core of a small Python library. The library is modelled on Bioconductor's
`Biostrings`. It has two parts.

A `DnaString` is a single DNA sequence. It is stored as upper-case bytes drawn from the IUPAC
alphabet plus the gap letter (`ACGTRYSWKMBDHVN-`).

A `DnaStringset` is a collection of sequences in the "pool and ranges" layout:
- one pool holds every member's bytes back to back;
- a directory holds one (start, width, name) record per member.

Selecting members by a list or a slice makes a view. A view shares the pool and gets a new directory.

The model covers the following:
- the alphabet, the validating constructor and the complement table (`alphabet.dfy`, `dnastring.dfy`);
- Python's slice and negative-index rules (`pyseq.dfy`);
- the directory records and their prefix-sum starts (`directory.dfy`);
- the collection: construction, `len`, `width`, indexing, list and slice selection, `to_list`, `unlist`,
  and the line-selection and truncation rules of `repr` (`dnastringset.dfy`);
- the C++ pool builder as a method with loops, proved equal to the functional constructor
  (`poolbuilder.dfy`);
- concrete collections and the counterexamples behind two findings (`scenarios.dfy`).

Errors are values (`Results.Result`), not exceptions:
- `NonDnaText` and `NonDnaSequence(i)` are the `ValueError`s;
- `IndexOutOfRange(k)` is the `IndexError`;
- `TextJoinedAsBytes` is the `TypeError` of joining decoded text with a bytes separator;
- `RangesLengthMismatch` is the directory refusing arrays that are not parallel.

The directory's own library is foreign code. It is modelled as a `seq<Record>` with positional selection.

Where the code has a defect (see "## Findings"), the model has two members: one as written, and a
corrected one. The dispatchers `DnaStrings.GetItem` and `DnaStringSets.Init` call the as-written
members, as the code does. The corrected members carry the intended properties.

## Model

| member | source | states |
|---|---|---|
| Alphabet.UpperText | src/biostrings/dnastring.py:35 | upper-casing keeps the length and maps every character on its own |
| Alphabet.UpperTextIsDnaData | src/biostrings/dnastring.py:10 | a text passes the case-insensitive letter test exactly when its upper-cased form is all alphabet letters |
| Alphabet.UpperTextFixesDnaData | src/biostrings/dnastring.py:35 | upper-casing leaves stored DNA data unchanged |
| Alphabet.UpperTextIdempotent | src/biostrings/dnastring.py:35 | upper-casing twice is upper-casing once |
| Alphabet.DnaDataIsDnaText | src/biostrings/dnastring.py:6-10 | stored DNA data passes the validator again |
| Alphabet.RegexAcceptsDnaText | src/biostrings/dnastring.py:10 | the regular expression accepts every text of alphabet letters in either case |
| Alphabet.RegexAccepts | src/biostrings/dnastring.py:10 | the regular expression accepts a text exactly when every character is a letter of either case, except that the last may be a newline |
| Alphabet.RegexAgreesWithoutNewline | src/biostrings/dnastring.py:10 | on a text that does not end in a newline, the regular expression is exactly the letter test |
| Alphabet.RegexAdmitsTrailingNewline | src/biostrings/dnastring.py:10 | the regular expression accepts "ACGT\n", which the letter test rejects |
| Alphabet.LettersAreDnaLetters | src/biostrings/dnastring.py:6 | a character is a DNA letter exactly when it is one of the sixteen listed letters |
| Alphabet.Complement | src/biostrings/dnastring.py:14 | translation sends a letter of either case to an alphabet letter and leaves every other character alone |
| Alphabet.ComplementMatchesTable | src/biostrings/dnastring.py:14 | translation agrees with every entry of the 32-entry byte table, upper and lower case |
| Alphabet.ComplementInvolution | src/biostrings/dnastring.py:14 | complementing an alphabet letter twice gives it back, and the complement stays in the alphabet |
| Alphabet.ComplementIgnoresCase | src/biostrings/dnastring.py:14 | lower-case letters complement like their upper-case forms, into upper case |
| Alphabet.ComplementFixesOthers | src/biostrings/dnastring.py:14 | a byte outside the table passes through translation unchanged |
| PySeq.Slice | src/biostrings/dnastring.py:81-82 | a clamped slice never grows and only holds elements of its source |
| PySeq.SliceHalfOpen | src/biostrings/dnastring.py:81-82 | with in-range bounds a slice is the half-open sub-sequence |
| PySeq.SlicePrefix | src/biostrings/dnastring.py:54 | `[:k]` is the first k elements, or everything when shorter |
| PySeq.SliceSuffix | src/biostrings/dnastring.py:54 | `[-k:]` is the last k elements, or everything when shorter |
| DnaStrings.Length | src/biostrings/dnastring.py:42-44 | `len` of a sequence is the length of its text |
| DnaStrings.ToText | src/biostrings/dnastring.py:46-48 | the text of a valid sequence passes the validator |
| DnaStrings.FromText | src/biostrings/dnastring.py:31-35 | construction succeeds exactly on texts of alphabet letters and stores the upper-cased text at the same length; otherwise the error is NonDnaText |
| DnaStrings.FromTextAsWritten | src/biostrings/dnastring.py:31-35 | construction as written succeeds exactly when the regular expression matches |
| DnaStrings.FromTextAsWrittenAgrees | src/biostrings/dnastring.py:10-35 | without a trailing newline the written constructor is the intended one |
| DnaStrings.TrailingNewlineStored | src/biostrings/dnastring.py:31-35 | as written, "ACGT\n" builds a length-5 string holding a newline; the intended constructor refuses it |
| DnaStrings.TextRoundTrip | src/biostrings/dnastring.py:35-48 | constructing from a string's own text gives that string back |
| DnaStrings.CaseInsensitiveConstruction | src/biostrings/dnastring.py:33-62 | texts that differ only in letter case construct equal strings |
| DnaStrings.LowerAndUpperEqual | src/biostrings/dnastring.py:59-65 | "acgt" and "ACGT" construct equal strings, and "ACGX" is refused |
| DnaStrings.Equals | src/biostrings/dnastring.py:61-62 | two sequences are equal exactly when their bytes agree one by one, which is equality of the values |
| DnaStrings.EqualsText | src/biostrings/dnastring.py:63-64 | equality with a text holds exactly when the lengths agree and every upper-cased character matches |
| DnaStrings.EqualsTextConstructs | src/biostrings/dnastring.py:31-64 | a valid sequence equals a text exactly when constructing from that text gives the sequence |
| DnaStrings.IndexAsWritten | src/biostrings/dnastring.py:77-80 | integer indexing as written yields at most one byte and keeps validity |
| DnaStrings.Index | src/biostrings/dnastring.py:77-80 | an index in [-n, n) yields the one byte at the wrapped position; any other index yields the empty string |
| DnaStrings.IndexAsWrittenAgrees | src/biostrings/dnastring.py:77-80 | for indices from -n-1 up, the written indexing is the intended one |
| DnaStrings.IndexWrapsTwice | src/biostrings/dnastring.py:77-80 | for indices in [-2n, -n-2] the written indexing wraps a second time and returns a byte |
| DnaStrings.IndexBelowDoubleWrap | src/biostrings/dnastring.py:77-80 | for indices below -2n both slice bounds clamp to the front, so the written indexing also gives the empty string |
| DnaStrings.IndexWrapsTwiceExample | src/biostrings/dnastring.py:77-80 | index -6 of "ACGT" gives "G" as written and the empty string as intended |
| DnaStrings.GetItem | src/biostrings/dnastring.py:67-84 | indexing as written never grows the string, only holds its bytes and keeps validity; an index in [-n, n) gives the byte it names, an index in [-2n, -n-2] gives byte k+2n, an index of n or more, -n-1, or below -2n gives the empty string, and an in-range slice gives the half-open sub-sequence |
| DnaStrings.GetItemHalfOpen | src/biostrings/dnastring.py:81-82 | an in-range slice key gives the half-open sub-sequence |
| DnaStrings.GetItemExample | src/biostrings/dnastring.py:81-82 | slicing "ACGTACGT" from 2 to 5 gives "GTA" |
| DnaStrings.ComplementText | src/biostrings/dnastring.py:92 | translation keeps the length and complements byte by byte |
| DnaStrings.Reverse | src/biostrings/dnastring.py:93 | reversal keeps the length and puts byte i at position n-1-i |
| DnaStrings.ReverseComplement | src/biostrings/dnastring.py:86-93 | byte i of the result is the complement of byte n-1-i of the input |
| DnaStrings.ReverseComplementValid | src/biostrings/dnastring.py:86-93 | the reverse complement of alphabet text is valid DNA data |
| DnaStrings.ReverseComplementInvolution | src/biostrings/dnastring.py:86-93 | taking the reverse complement twice gives the original string |
| DnaStrings.ReverseComplementPalindrome | src/biostrings/dnastring.py:86-93 | "ACGT" is its own reverse complement |
| DnaStrings.ReverseComplementExample | src/biostrings/dnastring.py:86-93 | the reverse complement of "AATTGGCC" is "GGCCAATT" |
| DnaStrings.Preview | src/biostrings/dnastring.py:50-57 | up to 20 bytes are shown whole; longer strings show the first 10 bytes, "..." and the last 10 |
| Directory.SumAppend | lib/src/stringsetpool.cpp:42 | the width total of a concatenation is the sum of the totals |
| Directory.RunningStartsStep | lib/src/stringsetpool.cpp:29-42 | each member starts where the previous member ends |
| Directory.RunningStartsSnoc | lib/src/stringsetpool.cpp:29-42 | appending a width appends a start equal to the total of the earlier widths |
| Directory.CumSum | src/biostrings/dnastringset.py:57 | the cumulative sum's entry i is the total of the first i+1 widths |
| Directory.PyStarts | src/biostrings/dnastringset.py:57 | the written starts have one entry per width, and one entry when there are no widths |
| Directory.PyStartsMatches | src/biostrings/dnastringset.py:57 | for at least one width the written starts are the running totals |
| Directory.PyStartsEmpty | src/biostrings/dnastringset.py:57 | for no widths the written starts are [0], which does not match the empty widths |
| Directory.MakeDirectory | src/biostrings/dnastringset.py:59 | the directory is made exactly when starts, widths and names are parallel, and it carries them record by record |
| Directory.TilesConsecutive | src/biostrings/dnastringset.py:56-59 | a directory that tiles the pool is consecutive, lies inside the pool, starts at 0 and ends at the pool's end |
| Directory.SelectPositions | src/biostrings/dnastringset.py:101-103 | list selection succeeds exactly when every index is in [-n, n), and picks the record at each wrapped index |
| Directory.SelectPositionsFromSource | src/biostrings/dnastringset.py:103 | a selected directory holds only records of the source directory |
| Directory.SliceConsecutive | src/biostrings/dnastringset.py:103 | slicing a consecutive directory gives a consecutive directory |
| DnaStringSets.ConcatLength | src/biostrings/dnastringset.py:54-56 | the pool length is the total of the member widths |
| DnaStringSets.ConcatDnaData | src/biostrings/dnastringset.py:52-56 | joining DNA data gives DNA data |
| DnaStringSets.ConcatPart | src/biostrings/dnastringset.py:56-57 | member i sits in the joined pool at the total of the earlier widths |
| DnaStringSets.Length | src/biostrings/dnastringset.py:65-67 | `len` of a collection is the number of records, one per entry of the width column |
| DnaStringSets.Width | src/biostrings/dnastringset.py:69-71 | one width per record, and for records inside the pool each width is the length of that member's text |
| DnaStringSets.ToList | src/biostrings/dnastringset.py:112-124 | one text per record in directory order; a record inside the pool gives exactly its bytes, and a DNA pool gives DNA texts |
| DnaStringSets.PiecesWithinPool | src/biostrings/dnastringset.py:120-123 | every record of a directory inside the pool lies in it and reads exactly its bytes |
| DnaStringSets.PieceWithinPool | src/biostrings/dnastringset.py:120-123 | a record inside the pool reads exactly its bytes |
| DnaStringSets.PiecesDnaData | src/biostrings/dnastringset.py:112-124 | every member read out of a DNA pool is DNA data |
| DnaStringSets.FirstRejected | src/biostrings/dnastringset.py:48-50 | the reported index is the first text the validator rejects, and none is reported exactly when all pass |
| DnaStringSets.FreshShape | src/biostrings/dnastringset.py:52-59 | a built pool is DNA data and its directory tiles it |
| DnaStringSets.Build | src/biostrings/dnastringset.py:43-59 | the corrected constructor: building succeeds exactly when every text is valid and the names are parallel; it reports the first bad text; the result has one member per text with the text's width, is valid, tiles its pool and carries the names |
| DnaStringSets.BuildAsWritten | src/biostrings/dnastringset.py:43-59 | as written, building succeeds only on a non-empty list the regular expression accepts |
| DnaStringSets.BuildAsWrittenEmpty | src/biostrings/dnastringset.py:57-59 | as written, an empty list fails in the directory; the intended build is the empty collection |
| DnaStringSets.BuildAsWrittenAgrees | src/biostrings/dnastringset.py:48-59 | on a non-empty list without trailing newlines the written build is the intended one |
| DnaStringSets.BuildAsWrittenAgreesOnValid | src/biostrings/dnastringset.py:48-59 | valid texts never end in a newline, so on a non-empty list of them the written build is the intended one |
| DnaStringSets.BuildAgreement | src/biostrings/dnastringset.py:43-59 | the written build is the intended one on non-empty lists without trailing newlines, and fails in the directory on the empty list |
| DnaStringSets.BuildAsWrittenNewline | src/biostrings/dnastringset.py:49-56 | as written, the list ["ACGT\n"] builds an invalid pool; the intended build refuses text 0 |
| DnaStringSets.BuildToList | src/biostrings/dnastringset.py:112-124 | a fresh collection lists exactly the upper-cased inputs |
| DnaStringSets.Init | src/biostrings/dnastringset.py:39-63 | an internal pool and directory are kept as given; otherwise texts go to the constructor as written, which fails on the empty list and is the corrected constructor on non-empty lists without trailing newlines; with neither the set is empty and valid |
| DnaStringSets.Get | src/biostrings/dnastringset.py:90-99 | integer indexing succeeds exactly for indices in [-n, n) and copies out the member at the wrapped index; otherwise the error names the index |
| DnaStringSets.BuildGet | src/biostrings/dnastringset.py:90-99 | member k of a fresh collection is the upper-cased k-th text |
| DnaStringSets.SelectList | src/biostrings/dnastringset.py:101-108 | list selection keeps the pool, succeeds exactly when all indices are in range, takes the source's record at each wrapped index (so lists the source members there), and keeps validity |
| DnaStringSets.SelectRange | src/biostrings/dnastringset.py:101-108 | slice selection keeps the pool, its directory is the Python slice of the source's records, it lists the slice of the source's members, and it keeps validity and consecutiveness |
| DnaStringSets.GetItem | src/biostrings/dnastringset.py:83-110 | an integer gives a copied member and a list or slice gives a view on the same pool, with the error cases of each selector; a list view has one member per index, holding the source's record and member at the wrapped index |
| DnaStringSets.ConsecutiveSpan | src/biostrings/dnastringset.py:137-144 | a consecutive run of records spans exactly its total width, and that span of the pool is the join of the members |
| DnaStringSets.SpanMatchesWidth | src/biostrings/dnastringset.py:138-142 | consecutive records inside the pool always pass the written span test |
| DnaStringSets.UnlistSpanFacts | src/biostrings/dnastringset.py:137-147 | for consecutive records the fast path's pool span is the join of the members, and a valid collection joins to DNA data |
| DnaStringSets.UnlistAsWritten | src/biostrings/dnastringset.py:126-147 | as written, unlist of no members is empty, succeeds exactly when the span test passes (giving the join for consecutive records) and otherwise fails with the type error of joining text with bytes |
| DnaStringSets.Unlist | src/biostrings/dnastringset.py:126-147 | unlist always gives the join of the members in directory order and keeps validity |
| DnaStringSets.Snippet | src/biostrings/dnastringset.py:172-175 | up to 18 bytes are shown whole; longer members show the first 7, "..." and the last 8 |
| DnaStringSets.ShortName | src/biostrings/dnastringset.py:177-179 | names up to 10 characters are shown whole; longer ones show the first 7 and "..." |
| DnaStringSets.EntryLine | src/biostrings/dnastringset.py:168-181 | the line for member i is numbered i + 1, counting from 1, and shows that member's width, the snippet of its bytes in the pool and its shortened name |
| DnaStringSets.EntryLines | src/biostrings/dnastringset.py:184-191 | a run of lines lists consecutive positions, each with its member's number, width, snippet and shortened name |
| DnaStringSets.ElidedLines | src/biostrings/dnastringset.py:186-191 | more than 10 members show the first 5, a line counting n-10 omitted, and the last 5 |
| DnaStringSets.DisplayLines | src/biostrings/dnastringset.py:183-191 | up to 10 members are all listed in order; otherwise 5, the omission count, and the last 5; every listed line shows its member's number, width, snippet and shortened name |
| DnaStringSets.DisplayAccountsForAll | src/biostrings/dnastringset.py:183-191 | the listed members plus the omission count add up to the length, and no member is listed twice |
| PoolBuilder.UpperChecked | lib/src/stringsetpool.cpp:32-39 | the per-character loop succeeds exactly on valid text and yields its upper-cased form |
| PoolBuilder.BuildWhenInvalid | lib/src/stringsetpool.cpp:34-37 | the first invalid text is the one reported |
| PoolBuilder.LoopStep | lib/src/stringsetpool.cpp:25-43 | one outer iteration appends the width, the start and the upper-cased bytes |
| PoolBuilder.CreatePool | lib/src/stringsetpool.cpp:15-57 | the C++ builder's loop computes exactly the corrected constructor `Build`, the empty list included, and so agrees with the constructor as written on non-empty lists without trailing newlines |
| Scenarios.UnlistGuardCounterexample | src/biostrings/dnastringset.py:138-147 | records 0, 2, 1, 3 of "AACCGGTT" pass the written span test without being consecutive; as written unlist returns the pool "AACCGGTT", not the join "AAGGCCTT" |
| Scenarios.BuildPairs | src/biostrings/dnastringset.py:43-59 | building "AA", "CC", "GG", "TT", as written or as intended, gives pool "AACCGGTT" with starts 0, 2, 4, 6 |
| Scenarios.Reach | src/biostrings/dnastringset.py:101-108 | selecting [0, 2, 1, 3] from that build, which the written constructor makes, reaches the counterexample collection |
| Scenarios.ThreeSequences | src/biostrings/dnastringset.py:43-99 | building "ACGTACGT", "GGCC", "TTAA", as written or as intended, gives widths 8, 4, 4, and member 1 is "GGCC" |
| Scenarios.GapPairJoins | src/biostrings/dnastringset.py:126-147 | two members with a gap between them are not consecutive; the intended unlist joins them and the written one fails with the type error |
| Scenarios.SelectionSkipsGap | src/biostrings/dnastringset.py:43-147 | the written constructor builds the three named texts as intended; selecting members 0 and 2 keeps names s1 and s3; the intended unlist skips the middle member's bytes, and the written one fails with the type error |

## Left out

- Unicode case mapping: `Upper` is ASCII upper-casing. Python's `str.upper` and the regular expression's
  Unicode case folding are not modelled. For example, the long s `ſ` passes the validator and upper-cases to
  `S`. Non-ASCII text is always refused by this model.
- `bytes` input to the `DnaString` constructor is modelled as constructing `DnaString(data)` directly,
  without validation, as the code does. The `TypeError` branches for other argument and key types are not
  modelled: the `Key` and `Selector` datatypes cannot express an unsupported type.
- Slices with a step (`[::k]`) are not modelled. Only start and stop are, with Python's clamping. The one
  stepped slice in the core is the reversal `[::-1]`, modelled as `DnaStrings.Reverse`.
- Boolean-mask and numpy-array selectors for a collection are left out. Their meaning is set by the
  directory library, which is foreign code.
- The `names` property getter and setter are left out. They delegate to the directory library. Names are
  carried per record and are set at construction.
- The directory library itself (its constructor, positional access and subsetting) is abstracted as
  `Directory.MakeDirectory` and `Directory.SelectPositions`. Its own checks beyond parallel arrays are not
  modelled.
- DnaStringSets.Get: an integer index still negative after adding the length is modelled as
  `IndexOutOfRange`. The code passes it on to the directory library's positional access, which is foreign
  code.
- Widths and starts are modelled as unbounded naturals. In Python the widths are a numpy `int32` array,
  and the starts come from `cumsum`, which widens to the platform integer. The C++ builder holds starts
  and widths in `int`. Pools of 2^31 bytes or more, where those would overflow, are not modelled.
- In the C++ builder, Python strings arrive as UTF-8 bytes and widths count bytes. Every non-ASCII byte
  fails the letter check, so only the reported error is affected. The model works on characters.
- The pybind11 glue, the construction of numpy and Python objects, and the module registration in
  `lib/src/stringsetpool.cpp` are left out. `PoolBuilder.CreatePool` returns the modelled collection.
- The `repr` header, the column padding of each line and the newline joining are left out. The model
  states which lines are shown and what each line holds. `DnaStrings.Preview` models the snippet rule of
  `DnaString.__repr__` and leaves out the surrounding text.
- The unused `str` complement table is not modelled. Only the byte table is used by the code. The same
  goes for `to_bytes`, which returns the stored data unchanged.
- Packaging details are not modelled. These are the module-import spelling in the collection file, its
  use of `Union` without importing it, and the `iranges` module name in the C++ file.
- DnaStringSets.BuildAsWritten: its contract states only necessary conditions for success. Its exact
  behaviour is pinned down by `BuildAsWrittenAgrees`, `BuildAsWrittenEmpty` and `BuildAsWrittenNewline`.
- DnaStrings.GetItem: for a slice key with a missing, negative or out-of-range bound the contract states
  only bounds, membership and validity. `PySeq.Slice` fixes those results.

## Findings

| source | as written | input that shows it | evidently intended | confidence | as-written member | corrected member |
|---|---|---|---|---|---|---|
| src/biostrings/dnastring.py:10 | the validator `^[...]*$` lets `$` match before a final newline, so a text ending in "\n" is accepted and the newline is stored | `DnaString("ACGT\n")` builds a length-5 string holding a non-DNA byte; the same text in a collection puts the newline in the pool | accept only texts made entirely of alphabet letters (a full match) | not executed | DnaStrings.FromTextAsWritten (shown by DnaStrings.TrailingNewlineStored, DnaStringSets.BuildAsWrittenNewline) | DnaStrings.FromText (DnaStrings.TextRoundTrip, DnaStringSets.Build) |
| src/biostrings/dnastringset.py:142 | `unlist` takes the pool span whenever last end minus first start equals the width total, which permuted records also satisfy | `DnaStringset(["AA","CC","GG","TT"])[[0,2,1,3]].unlist()` gives "AACCGGTT" instead of "AAGGCCTT" | take the pool span only when each record starts where the previous one ends | not executed | DnaStringSets.UnlistAsWritten (shown by Scenarios.UnlistGuardCounterexample, Scenarios.Reach) | DnaStringSets.Unlist (DnaStringSets.ConsecutiveSpan) |
| src/biostrings/dnastringset.py:57 | starts are `[0]` followed by the cumulative sums of all widths but the last, which gives one start for zero sequences | `DnaStringset([])` passes one start and no widths to the directory | no starts for no sequences, as the C++ builder does | not executed | DnaStringSets.BuildAsWritten (shown by DnaStringSets.BuildAsWrittenEmpty, Directory.PyStartsEmpty) | DnaStringSets.Build (PoolBuilder.CreatePool) |
| src/biostrings/dnastring.py:77-80 | a negative index has the length added once, and a still-negative result is used as a slice bound, where it wraps again | `DnaString("ACGT")[-6]` gives "G" | an index below -n selects nothing | not executed | DnaStrings.IndexAsWritten (shown by DnaStrings.IndexWrapsTwice, DnaStrings.IndexWrapsTwiceExample) | DnaStrings.Index (DnaStrings.IndexAsWrittenAgrees) |
| src/biostrings/dnastringset.py:147 | when the span test fails, `unlist` joins `to_list()` with a bytes separator, but `to_list()` returns decoded text, so the join raises a type error | `DnaStringset(["ACGTACGT","NNNN","GATTACA"])[[0,2]].unlist()` raises instead of giving "ACGTACGTGATTACA" | join the members' bytes (or decode and re-encode), giving the concatenation of the members | not executed | DnaStringSets.UnlistAsWritten (shown by Scenarios.SelectionSkipsGap) | DnaStringSets.Unlist (Scenarios.GapPairJoins) |
