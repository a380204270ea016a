/**
  The sequential helpers of the OAI-PMH harvester (invenio_oaiharvester/utils.py):
  the item event codes, `chunks`, `write_to_dir` without the filesystem,
  `get_identifier_names` and the default-port rule of `analyze_url`.
 */
module OaiUtils {
  import opened Wrappers
  import Text

  // ---------------------------------------------------------------------------
  // ItemEvents

  /** The item-processing events of the harvester, an `IntEnum`. */
  datatype ItemEvent = Init | Create | Update | Delete | Error

  function EventValue(e: ItemEvent): (v: nat)
  {
    match e
    case Init => 0
    case Create => 1
    case Update => 2
    case Delete => 3
    case Error => 9
  }

  /** `ItemEvents(v)`: the member with value `v`; an unknown value raises, here None. */
  function EventOf(v: int): (e: Option<ItemEvent>)
    ensures e.Some? <==> v in {0, 1, 2, 3, 9}
  {
    if v == 0 then Some(Init)
    else if v == 1 then Some(Create)
    else if v == 2 then Some(Update)
    else if v == 3 then Some(Delete)
    else if v == 9 then Some(Error)
    else None
  }

  /** Values and members correspond one to one. */
  lemma EventValueRoundTrip(e: ItemEvent, v: int)
    ensures EventOf(EventValue(e)) == Some(e)
    ensures EventOf(v) == Some(e) <==> EventValue(e) == v
  {
  }

  // ---------------------------------------------------------------------------
  // chunks

  /**
    `itertools.islice` rejects with ValueError a stop that is negative or does
    not fit a `Py_ssize_t`, before it reads the iterator.
   */
  datatype HarvestError = InvalidChunkSize

  /** `sys.maxsize`, the largest stop `islice` accepts, on a 64-bit build. */
  const PY_SSIZE_T_MAX := 0x7FFF_FFFF_FFFF_FFFF

  /** The stops `islice` accepts as integers. */
  predicate ValidChunkSize(size: int)
  {
    0 <= size <= PY_SSIZE_T_MAX
  }

  function Min(a: int, b: int): (m: int) { if a <= b then a else b }

  /**
    The tuples `chunks(xs, size)` yields: consecutive slices of `size`
    elements, the last one shorter; nothing at all when `size` is 0, because
    the first slice is already empty.
   */
  function ChunksOf<T>(xs: seq<T>, size: nat): (cs: seq<seq<T>>)
    decreases |xs|
  {
    if size == 0 || xs == [] then []
    else if |xs| <= size then [xs]
    else [xs[..size]] + ChunksOf(xs[size..], size)
  }

  function Flatten<T>(css: seq<seq<T>>): (flat: seq<T>)
  {
    if css == [] then [] else css[0] + Flatten(css[1..])
  }

  lemma {:induction false} FlattenAppend<T>(css: seq<seq<T>>, c: seq<T>)
    ensures Flatten(css + [c]) == Flatten(css) + c
  {
    if css == [] {
      assert [] + [c] == [c];
      assert [c][1..] == [];
    } else {
      assert (css + [c])[1..] == css[1..] + [c];
      FlattenAppend(css[1..], c);
    }
  }

  /** One step of `chunks`: take at most `size` elements, continue with the rest. */
  lemma ChunksOfStep<T>(ys: seq<T>, size: nat)
    requires size >= 1 && ys != []
    ensures ChunksOf(ys, size) == [ys[..Min(size, |ys|)]] + ChunksOf(ys[Min(size, |ys|)..], size)
  {
    if |ys| <= size {
      assert ys[..|ys|] == ys;
      assert ys[|ys|..] == [];
    }
  }

  /** `chunks` as the source runs it: slice after slice from one shared iterator. */
  method Chunks<T>(xs: seq<T>, size: int) returns (r: Result<seq<seq<T>>, HarvestError>)
    ensures !ValidChunkSize(size) ==> r == Failure(InvalidChunkSize)
    ensures ValidChunkSize(size) ==> r == Success(ChunksOf(xs, size))
  {
    if !ValidChunkSize(size) {
      return Failure(InvalidChunkSize);
    }
    var cs: seq<seq<T>> := [];
    var pos := 0;
    while true
      invariant 0 <= pos <= |xs|
      invariant cs + ChunksOf(xs[pos..], size) == ChunksOf(xs, size)
      decreases |xs| - pos
    {
      var chunk := xs[pos..Min(pos + size, |xs|)];
      if chunk == [] {
        assert ChunksOf(xs[pos..], size) == [];
        assert cs + [] == cs;
        break;
      }
      ChunksOfStep(xs[pos..], size);
      assert xs[pos..][..Min(size, |xs| - pos)] == chunk;
      assert xs[pos..][Min(size, |xs| - pos)..] == xs[pos + |chunk|..];
      cs := cs + [chunk];
      pos := pos + |chunk|;
    }
    return Success(cs);
  }

  /** Concatenating the chunks gives back the input, in order. */
  lemma {:induction false} FlattenChunks<T>(xs: seq<T>, size: nat)
    requires size >= 1
    ensures Flatten(ChunksOf(xs, size)) == xs
  {
    if xs != [] {
      if |xs| <= size {
        assert ChunksOf(xs, size) == [xs];
        assert [xs][1..] == [];
        assert xs + [] == xs;
      } else {
        var rest := ChunksOf(xs[size..], size);
        FlattenChunks(xs[size..], size);
        assert ([xs[..size]] + rest)[1..] == rest;
        assert xs[..size] + xs[size..] == xs;
      }
    }
  }

  /**
    Every chunk is non-empty and holds at most `size` elements; all but the
    last hold exactly `size`; there are no chunks exactly when the input is
    empty or `size` is 0.
   */
  lemma {:induction false} ChunkShape<T>(xs: seq<T>, size: nat)
    ensures ChunksOf(xs, size) == [] <==> (xs == [] || size == 0)
    ensures forall i :: 0 <= i < |ChunksOf(xs, size)| ==> 1 <= |ChunksOf(xs, size)[i]| <= size
    ensures forall i :: 0 <= i < |ChunksOf(xs, size)| - 1 ==> |ChunksOf(xs, size)[i]| == size
  {
    if size != 0 && xs != [] && |xs| > size {
      var rest := ChunksOf(xs[size..], size);
      ChunkShape(xs[size..], size);
      var cs := [xs[..size]] + rest;
      assert ChunksOf(xs, size) == cs;
      forall i | 1 <= i < |cs| ensures cs[i] == rest[i - 1] { }
    }
  }

  /**
    `chunks(xs, size)` yields ceil(len(xs) / size) tuples: the fewest whose
    `size` slots hold every element.
   */
  lemma {:induction false} ChunkCount<T>(xs: seq<T>, size: nat)
    requires size >= 1
    ensures (|ChunksOf(xs, size)| - 1) * size < |xs| <= |ChunksOf(xs, size)| * size
  {
    if |xs| > size {
      var k := |ChunksOf(xs[size..], size)|;
      ChunkCount(xs[size..], size);
      assert (k + 1) * size == k * size + size;
      assert (k + 1 - 1) * size == (k - 1) * size + size;
    }
  }

  /** Chunk `i` is the slice of the input from `i * size`, at most `size` long. */
  lemma {:induction false} ChunkAt<T>(xs: seq<T>, size: nat, i: nat)
    requires size >= 1 && i < |ChunksOf(xs, size)|
    ensures i * size < |xs|
    ensures ChunksOf(xs, size)[i] == xs[i * size..Min(i * size + size, |xs|)]
  {
    if i == 0 {
      assert i * size == 0;
      ChunksOfStep(xs, size);
    } else {
      var rest := xs[size..];
      assert ChunksOf(xs, size)[i] == ChunksOf(rest, size)[i - 1] by {
        assert |xs| > size;
      }
      ChunkAt(rest, size, i - 1);
      MulStep(i, size);
      ShiftedSlice(xs, size, (i - 1) * size, Min((i - 1) * size + size, |rest|));
    }
  }

  /** A slice of `xs[size..]` is the slice of `xs` moved `size` places on. */
  lemma ShiftedSlice<T>(xs: seq<T>, size: nat, lo: int, hi: int)
    requires size <= |xs| && 0 <= lo <= hi <= |xs| - size
    ensures xs[size..][lo..hi] == xs[lo + size..hi + size]
  {
  }

  /** The arithmetic step of `ChunkAt`. */
  lemma MulStep(i: nat, size: nat)
    requires i >= 1
    ensures (i - 1) * size + size == i * size
  {
  }

  // ---------------------------------------------------------------------------
  // write_to_dir

  /** A harvested record; only its `raw` XML text is written out. */
  datatype Record = Record(raw: string)

  /** The `raw` texts of `rs`, in order. */
  function Raws(rs: seq<Record>): (text: string)
  {
    if rs == [] then "" else Raws(rs[..|rs| - 1]) + rs[|rs| - 1].raw
  }

  /** What `write_to_dir` writes into the file of one chunk. */
  function FileContent(chunk: seq<Record>): (content: string)
  {
    "<ListRecords>" + Raws(chunk) + "</ListRecords>"
  }

  /** The default of `write_to_dir`'s `max_records` argument. */
  const DEFAULT_MAX_RECORDS := 1000

  /**
    `write_to_dir` with each created file stood for by its content: one file
    per chunk of `maxRecords` records (`DEFAULT_MAX_RECORDS` when the caller
    passes none), and the number of records written.
   */
  method WriteToDir(records: seq<Record>, maxRecords: int) returns (r: Result<(seq<string>, nat), HarvestError>)
    ensures records == [] ==> r == Success(([], 0))
    ensures records != [] && !ValidChunkSize(maxRecords) ==> r == Failure(InvalidChunkSize)
    ensures ValidChunkSize(maxRecords) ==> r.Success?
    ensures r.Success? ==>
      var cs := ChunksOf(records, if maxRecords < 0 then 0 else maxRecords);
      && |r.value.0| == |cs|
      && (forall i :: 0 <= i < |cs| ==> r.value.0[i] == FileContent(cs[i]))
      && r.value.1 == |Flatten(cs)|
    ensures 1 <= maxRecords <= PY_SSIZE_T_MAX ==> r.Success? && r.value.1 == |records|
    ensures 1 <= maxRecords <= PY_SSIZE_T_MAX ==>
      (|r.value.0| - 1) * maxRecords < |records| <= |r.value.0| * maxRecords
  {
    if records == [] {
      return Success(([], 0));
    }
    var chunked := Chunks(records, maxRecords);
    if chunked.Failure? {
      return Failure(chunked.error);
    }
    var cs := chunked.value;
    var files, total := WriteChunks(cs);
    if maxRecords >= 1 {
      FlattenChunks(records, maxRecords);
      ChunkCount(records, maxRecords);
    }
    return Success((files, total));
  }

  /** `write_to_dir`'s loop over the chunks: one file text per chunk, and the records counted. */
  method WriteChunks(cs: seq<seq<Record>>) returns (files: seq<string>, total: nat)
    ensures |files| == |cs|
    ensures forall i :: 0 <= i < |cs| ==> files[i] == FileContent(cs[i])
    ensures total == |Flatten(cs)|
  {
    files, total := [], 0;
    for k := 0 to |cs|
      invariant |files| == k
      invariant forall i :: 0 <= i < k ==> files[i] == FileContent(cs[i])
      invariant total == |Flatten(cs[..k])|
    {
      var content, written := WriteChunk(cs[k]);
      files := files + [content];
      total := total + written;
      FlattenAppend(cs[..k], cs[k]);
      assert cs[..k + 1] == cs[..k] + [cs[k]];
    }
    assert cs[..|cs|] == cs;
  }

  /** The body of `write_to_dir`'s loop for one chunk: the file's text, and one count per record. */
  method WriteChunk(chunk: seq<Record>) returns (content: string, written: nat)
    ensures content == FileContent(chunk)
    ensures written == |chunk|
  {
    content := "<ListRecords>";
    written := 0;
    for j := 0 to |chunk|
      invariant content == "<ListRecords>" + Raws(chunk[..j])
      invariant written == j
    {
      assert chunk[..j + 1][..j] == chunk[..j];
      content := content + chunk[j].raw;
      written := written + 1;
    }
    assert chunk[..|chunk|] == chunk;
    content := content + "</ListRecords>";
  }

  // ---------------------------------------------------------------------------
  // get_identifier_names

  /** Python's `str.isspace()` for one character, the set `str.strip()` removes. */
  predicate IsPySpace(c: char)
  {
    || 0x09 <= c as int <= 0x0D
    || 0x1C <= c as int <= 0x20
    || c as int == 0x85 || c as int == 0xA0 || c as int == 0x1680
    || 0x2000 <= c as int <= 0x200A
    || c as int == 0x2028 || c as int == 0x2029 || c as int == 0x202F
    || c as int == 0x205F || c as int == 0x3000
  }

  /** `s.strip()`. */
  function Strip(s: string): (stripped: string)
  {
    Text.Trim(s, IsPySpace)
  }

  /** The three shapes the argument takes: None, a list or tuple, or a string. */
  datatype Identifiers = NoIdentifiers | IdentifierList(items: seq<string>) | CommaSeparated(text: string)

  function StripEach(items: seq<string>): (r: seq<string>)
    ensures |r| == |items|
    ensures forall i :: 0 <= i < |items| ==> r[i] == Strip(items[i])
  {
    if items == [] then [] else [Strip(items[0])] + StripEach(items[1..])
  }

  /**
    `get_identifier_names`: None gives no names; a list or tuple is stripped
    element by element; a string is split at every comma and each part stripped.
   */
  function GetIdentifierNames(ids: Identifiers): (names: seq<string>)
    ensures ids.NoIdentifiers? ==> names == []
    ensures ids.IdentifierList? ==>
      && |names| == |ids.items|
      && forall i :: 0 <= i < |names| ==> names[i] == Strip(ids.items[i])
    ensures ids.CommaSeparated? ==>
      && |names| == Text.Count(ids.text, ',') + 1
      && (forall i :: 0 <= i < |names| ==> names[i] == Strip(Text.Split(ids.text, ',')[i]))
      && (forall i :: 0 <= i < |names| ==> ',' !in names[i])
    ensures forall i :: 0 <= i < |names| ==>
      names[i] == [] || (!IsPySpace(names[i][0]) && !IsPySpace(names[i][|names[i]| - 1]))
  {
    match ids
    case NoIdentifiers => []
    case IdentifierList(items) => StripEach(items)
    case CommaSeparated(text) =>
      var parts := Text.Split(text, ',');
      var names := StripEach(parts);
      forall i | 0 <= i < |names| ensures ',' !in names[i] {
        Text.TrimAbsent(parts[i], IsPySpace, ',');
      }
      names
  }

  /**
    Names without commas and without surrounding whitespace survive a trip
    through a comma-separated string.
   */
  lemma IdentifierNamesRoundTrip(names: seq<string>)
    requires |names| >= 1
    requires forall i :: 0 <= i < |names| ==> ',' !in names[i]
    requires forall i :: 0 <= i < |names| ==>
      names[i] == [] || (!IsPySpace(names[i][0]) && !IsPySpace(names[i][|names[i]| - 1]))
    ensures GetIdentifierNames(CommaSeparated(Text.Join(names, ','))) == names
  {
    Text.SplitJoin(names, ',');
    var r := GetIdentifierNames(CommaSeparated(Text.Join(names, ',')));
    forall i | 0 <= i < |names| ensures r[i] == names[i] {
      Text.TrimPadded([], names[i], [], IsPySpace);
      assert [] + names[i] + [] == names[i];
    }
  }

  /**
    Any comma-free parts, padded with whitespace or not, joined with commas
    parse to those parts each stripped.
   */
  lemma IdentifierNamesOfJoin(parts: seq<string>)
    requires |parts| >= 1
    requires forall i :: 0 <= i < |parts| ==> ',' !in parts[i]
    ensures GetIdentifierNames(CommaSeparated(Text.Join(parts, ','))) == StripEach(parts)
  {
    Text.SplitJoin(parts, ',');
  }

  /** Whitespace around a name is dropped: `" a ,b "` gives `["a", "b"]`. */
  lemma IdentifierNamesStripPadding(a: string, b: string)
    requires ',' !in a && ',' !in b
    requires a == [] || (!IsPySpace(a[0]) && !IsPySpace(a[|a| - 1]))
    requires b == [] || (!IsPySpace(b[0]) && !IsPySpace(b[|b| - 1]))
    ensures GetIdentifierNames(CommaSeparated(" " + a + " ," + b + " ")) == [a, b]
  {
    var p, q := " " + a + " ", "" + b + " ";
    assert Strip(p) == a && Strip(q) == b by {
      assert Text.AllIn(" ", IsPySpace) && Text.AllIn("", IsPySpace);
      Text.TrimPadded(" ", a, " ", IsPySpace);
      Text.TrimPadded("", b, " ", IsPySpace);
    }
    var parts := [p, q];
    assert Text.Join(parts, ',') == " " + a + " ," + b + " " by {
      assert Text.Join(parts, ',') == p + [','] + q;
    }
    assert ',' !in p && ',' !in q;
    IdentifierNamesOfJoin(parts);
  }

  /** An empty string still gives one, empty, name. */
  lemma IdentifierNamesOfEmpty()
    ensures GetIdentifierNames(CommaSeparated("")) == [""]
  {
    Text.TrimPadded([], "", [], IsPySpace);
    assert [] + "" + [] == "";
  }

  /** An empty part between two commas is kept as an empty name. */
  lemma IdentifierNamesKeepEmptyPart()
    ensures GetIdentifierNames(CommaSeparated("a,,b")) == ["a", "", "b"]
  {
    assert Text.Join(["a", "", "b"], ',') == "a,,b";
    IdentifierNamesRoundTrip(["a", "", "b"]);
  }

  /** A list is stripped element by element: `[' a', 'b ']` gives `['a', 'b']`. */
  lemma IdentifierNamesOfList()
    ensures GetIdentifierNames(IdentifierList([" a", "b "])) == ["a", "b"]
  {
    assert Text.AllIn(" ", IsPySpace) && Text.AllIn("", IsPySpace);
    Text.TrimPadded(" ", "a", "", IsPySpace);
    Text.TrimPadded("", "b", " ", IsPySpace);
    assert " " + "a" + "" == " a" && "" + "b" + " " == "b ";
  }

  // ---------------------------------------------------------------------------
  // analyze_url

  /** The components `urlparse` gives `analyze_url`: scheme, hostname, port. */
  datatype UrlParts = UrlParts(scheme: string, hostname: Option<string>, port: Option<nat>)

  /**
    `analyze_url` after parsing: an https URL whose port is missing gets 443.
    The test is `not port`, so an explicit port 0 counts as missing too.
   */
  function AnalyzeUrl(u: UrlParts): (r: UrlParts)
    ensures r.scheme == u.scheme && r.hostname == u.hostname
    ensures u.scheme == "https" && u.port in {None, Some(0)} ==> r.port == Some(443)
    ensures u.scheme != "https" || u.port !in {None, Some(0)} ==> r.port == u.port
  {
    if (u.port == None || u.port == Some(0)) && u.scheme == "https" then u.(port := Some(443)) else u
  }

  /** Analysing again changes nothing, and an https result always has a non-zero port. */
  lemma AnalyzeUrlIdempotent(u: UrlParts)
    ensures AnalyzeUrl(AnalyzeUrl(u)) == AnalyzeUrl(u)
    ensures u.scheme == "https" ==> AnalyzeUrl(u).port.Some? && AnalyzeUrl(u).port.value != 0
  {
  }
}
