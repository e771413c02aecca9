/** Day 12 input: numbered shape blocks (`<index>:` followed by grid rows), then one
    region per line (`<width>x<height>: <count> <count> ...`). */
module Day12Parse {
  import opened Common
  import opened Day12Grid
  import opened Day12Place
  import opened Day12Region

  datatype ParseError =
    | ExpectedHeader(line: string)
    | InvalidIndex(text: string)
    | NoGridLines(index: nat)
    | NoShapes
    | DuplicateIndex(index: nat)
    | BadShape(error: ShapeError)
    | MissingIndex(index: nat)
    | CountMismatch(counts: nat, shapes: nat)

  /** A shape block: its index and its trimmed grid rows. */
  datatype Entry = Entry(index: nat, grid: seq<string>)

  // ---------------------------------------------------------------------------
  // Numbers and region lines
  // ---------------------------------------------------------------------------

  /** One more than the largest `usize` on a 64-bit target. */
  const UsizeLimit: nat := 0x1_0000_0000_0000_0000

  /** `str::parse::<usize>`: an optional `+`, then one or more decimal digits whose value
      fits in 64 bits. */
  function ParseUsize(t: string): (r: Option<nat>)
    ensures r.Some? ==> r.value < UsizeLimit
  {
    match Digits(if |t| > 0 && t[0] == '+' then t[1..] else t)
    case Some(v) => if v < UsizeLimit then Some(v) else None
    case None => None
  }

  /** The value of a non-empty string of decimal digits; nothing for any other string. */
  function Digits(d: string): Option<nat>
  {
    if |d| == 0 || !IsDigit(d[|d| - 1]) then None
    else if |d| == 1 then Some(DigitValue(d[0]))
    else
      match Digits(d[..|d| - 1])
      case Some(v) => Some(v * 10 + DigitValue(d[|d| - 1]))
      case None => None
  }

  /** `Digits` reads exactly the non-empty digit strings, with their decimal value. */
  lemma {:induction false} DigitsMeaning(d: string)
    ensures Digits(d).Some? <==> |d| > 0 && AllDigits(d)
    ensures Digits(d).Some? ==> Digits(d).value == DecimalValue(d)
    decreases |d|
  {
    if |d| > 1 {
      var front := d[..|d| - 1];
      DigitsMeaning(front);
      if !AllDigits(front) {
        var i :| 0 <= i < |front| && !IsDigit(front[i]);
        assert d[i] == front[i];
      }
    } else if |d| == 1 {
      assert d[..0] == [];
    }
  }

  /** Every number in range reads back from its decimal digits. */
  lemma {:induction false} ParseUsizeDecimal(n: nat)
    requires n < UsizeLimit
    ensures ParseUsize(Decimal(n)) == Some(n)
  {
    DecimalValueOfDecimal(n);
    DigitsMeaning(Decimal(n));
  }

  /** Each word as a `usize`, or nothing when one of them is not a number. */
  function CountsOf(ws: seq<string>): (r: Option<seq<nat>>)
    ensures r.Some? ==> |r.value| == |ws|
  {
    if ws == [] then Some([])
    else
      match (CountsOf(ws[..|ws| - 1]), ParseUsize(ws[|ws| - 1]))
      case (Some(cs), Some(c)) => Some(cs + [c])
      case _ => None
  }

  /** `parse_region_line`: a trimmed, non-empty line with exactly one `:`, before it two
      numbers joined by exactly one `x`, after it whitespace-separated numbers. */
  function RegionLine(line: string): Option<Region>
  {
    var t := Common.Trim(line);
    if t == [] then None
    else
      var parts := Split(t, ':');
      if |parts| != 2 then None
      else
        var dims := Split(parts[0], 'x');
        if |dims| != 2 then None
        else
          match (ParseUsize(dims[0]), ParseUsize(dims[1]), CountsOf(Words(parts[1])))
          case (Some(w), Some(h), Some(cs)) => Some(Region(w, h, cs))
          case _ => None
  }

  /** A region line written out: `<width>x<height>:` and a space before each count. */
  function FormatRegion(r: Region): string
  {
    Decimal(r.width) + "x" + Decimal(r.height) + ":" + FormatCounts(r.counts)
  }

  function FormatCounts(cs: seq<nat>): string
  {
    if cs == [] then "" else " " + Decimal(cs[0]) + FormatCounts(cs[1..])
  }

  /** A region whose numbers fit in a `usize` reads back from its written form. */
  lemma RegionLineFormat(r: Region)
    requires r.width < UsizeLimit && r.height < UsizeLimit
    requires forall i :: 0 <= i < |r.counts| ==> r.counts[i] < UsizeLimit
    ensures RegionLine(FormatRegion(r)) == Some(r)
  {
    var dw, dh, rest := Decimal(r.width), Decimal(r.height), FormatCounts(r.counts);
    FormatPieces(r);
    ParseUsizeDecimal(r.width);
    ParseUsizeDecimal(r.height);
    CountsRead(r.counts);
    RegionLineParts(FormatRegion(r), dw + "x" + dh, dw, dh, rest, r);
  }

  /** A written region line is trimmed and splits back into its pieces. */
  lemma FormatPieces(r: Region)
    ensures var s, dims := FormatRegion(r), Decimal(r.width) + "x" + Decimal(r.height);
      && Common.Trim(s) == s && s != []
      && Split(s, ':') == [dims, FormatCounts(r.counts)]
      && Split(dims, 'x') == [Decimal(r.width), Decimal(r.height)]
  {
    var dw, dh, rest := Decimal(r.width), Decimal(r.height), FormatCounts(r.counts);
    DecimalChars(r.width);
    DecimalChars(r.height);
    CountsChars(r.counts);
    var s := FormatRegion(r);
    var dims := dw + "x" + dh;
    RegionLineTrim(s, dw, dh, rest);
    SplitOuter(s, dims, dw, dh, rest);
    SplitInner(dims, dw, dh);
  }

  lemma RegionLineTrim(s: string, dw: string, dh: string, rest: string)
    requires s == dw + "x" + dh + ":" + rest
    requires |dw| >= 1 && IsDigit(dw[0]) && (rest == [] || IsDigit(rest[|rest| - 1]))
    ensures Common.Trim(s) == s && s != []
  {
    assert s[0] == dw[0];
    if rest == [] {
      assert s[|s| - 1] == ':';
    } else {
      assert s[|s| - 1] == rest[|rest| - 1];
    }
    TrimStartNone(s);
    TrimEndNone(s);
  }

  /** `RegionLine` once the trimming and the two splits are known. */
  lemma {:induction false} RegionLineParts(s: string, dims: string, dw: string, dh: string, rest: string, r: Region)
    requires Common.Trim(s) == s && s != []
    requires Split(s, ':') == [dims, rest] && Split(dims, 'x') == [dw, dh]
    requires ParseUsize(dw) == Some(r.width) && ParseUsize(dh) == Some(r.height)
    requires CountsOf(Words(rest)) == Some(r.counts)
    ensures RegionLine(s) == Some(r)
  {
  }

  lemma {:induction false} SplitOuter(s: string, dims: string, dw: string, dh: string, rest: string)
    requires s == dw + "x" + dh + ":" + rest && dims == dw + "x" + dh
    requires ':' !in dw && ':' !in dh && ':' !in rest
    ensures Split(s, ':') == [dims, rest]
  {
    assert s == dims + [':'] + rest;
    SplitTwo(dims, ':', rest);
  }

  lemma {:induction false} SplitInner(dims: string, dw: string, dh: string)
    requires dims == dw + "x" + dh && 'x' !in dw && 'x' !in dh
    ensures Split(dims, 'x') == [dw, dh]
  {
    assert dims == dw + ['x'] + dh;
    SplitTwo(dw, 'x', dh);
  }

  /** A string with exactly one separator splits into the two sides. */
  lemma {:induction false} SplitTwo(a: string, sep: char, b: string)
    requires sep !in a && sep !in b
    ensures Split(a + [sep] + b, sep) == [a, b]
  {
    SplitAt(a, sep, b);
    SplitWhole(b, sep);
  }

  /** Decimal digits are neither whitespace nor separators. */
  lemma {:induction false} DecimalChars(n: nat)
    ensures |Decimal(n)| >= 1 && IsDigit(Decimal(n)[0]) && IsDigit(Decimal(n)[|Decimal(n)| - 1])
    ensures forall i :: 0 <= i < |Decimal(n)| ==> !IsSpace(Decimal(n)[i])
    ensures ':' !in Decimal(n) && 'x' !in Decimal(n)
  {
  }

  /** Written counts hold no separator, and are empty or end in a digit. */
  lemma {:induction false} CountsChars(cs: seq<nat>)
    ensures ':' !in FormatCounts(cs) && 'x' !in FormatCounts(cs)
    ensures FormatCounts(cs) == [] || IsDigit(FormatCounts(cs)[|FormatCounts(cs)| - 1])
  {
    if cs != [] {
      CountsChars(cs[1..]);
      DecimalChars(cs[0]);
      PieceChars(Decimal(cs[0]), FormatCounts(cs[1..]));
    }
  }

  lemma PieceChars(d: string, tail: string)
    requires |d| >= 1 && IsDigit(d[|d| - 1]) && ':' !in d && 'x' !in d
    requires ':' !in tail && 'x' !in tail && (tail == [] || IsDigit(tail[|tail| - 1]))
    ensures var s := " " + d + tail; ':' !in s && 'x' !in s && IsDigit(s[|s| - 1])
  {
    var s := " " + d + tail;
    forall i | 0 <= i < |s| ensures s[i] != ':' && s[i] != 'x' {
      if 0 < i <= |d| {
        assert s[i] == d[i - 1];
      } else if i > |d| {
        assert s[i] == tail[i - 1 - |d|];
      }
    }
    if tail == [] {
      assert s[|s| - 1] == d[|d| - 1];
    } else {
      assert s[|s| - 1] == tail[|tail| - 1];
    }
  }

  lemma {:induction false} TrimStartNone(s: string)
    requires s != [] && !IsSpace(s[0])
    ensures TrimStart(s) == s
  {
  }

  lemma {:induction false} TrimEndNone(s: string)
    requires s != [] && !IsSpace(s[|s| - 1])
    ensures TrimEnd(s) == s
  {
  }

  /** Splitting at the first separator. */
  lemma {:induction false} SplitAt(a: string, sep: char, b: string)
    requires sep !in a
    ensures Split(a + [sep] + b, sep) == [a] + Split(b, sep)
  {
    var s := a + [sep] + b;
    IndexOfAt(s, sep, 0, |a|);
    assert s[..|a|] == a && s[|a| + 1..] == b;
  }

  /** A string without the separator is one piece. */
  lemma {:induction false} SplitWhole(s: string, sep: char)
    requires sep !in s
    ensures Split(s, sep) == [s]
  {
    IndexOfAt(s, sep, 0, |s|);
  }

  /** The words of written counts are the counts' decimal forms, and read back. */
  lemma {:induction false} CountsRead(cs: seq<nat>)
    requires forall i :: 0 <= i < |cs| ==> cs[i] < UsizeLimit
    ensures CountsOf(Words(FormatCounts(cs))) == Some(cs)
  {
    CountsWords(cs);
    forall i | 0 <= i < |cs| ensures ParseUsize(Decimals(cs)[i]) == Some(cs[i]) {
      ParseUsizeDecimal(cs[i]);
    }
    CountsParse(cs, Decimals(cs));
  }

  /** The decimal forms of the counts, in order. */
  function Decimals(cs: seq<nat>): (ds: seq<string>)
    ensures |ds| == |cs|
  {
    seq(|cs|, i requires 0 <= i < |cs| => Decimal(cs[i]))
  }

  lemma DecimalsCons(cs: seq<nat>)
    requires cs != []
    ensures Decimals(cs) == [Decimal(cs[0])] + Decimals(cs[1..])
  {
  }

  lemma {:induction false} CountsWords(cs: seq<nat>)
    ensures Words(FormatCounts(cs)) == Decimals(cs)
  {
    if cs != [] {
      CountsWords(cs[1..]);
      DecimalChars(cs[0]);
      CountsStart(cs[1..]);
      WordsCons(Decimal(cs[0]), FormatCounts(cs[1..]));
      DecimalsCons(cs);
    }
  }

  /** A space, a word and then nothing or a space: the word comes first. */
  lemma {:induction false} WordsCons(d: string, tail: string)
    requires |d| >= 1 && forall i :: 0 <= i < |d| ==> !IsSpace(d[i])
    requires tail == [] || tail[0] == ' '
    ensures Words(" " + d + tail) == [d] + Words(tail)
  {
    var s, t := " " + d + tail, d + tail;
    SpaceFirst(s, t, d, tail);
    FirstWord(t, d, tail);
    WordsStep(s, t, d, tail);
  }

  lemma {:induction false} SpaceFirst(s: string, t: string, d: string, tail: string)
    requires s == " " + d + tail && t == d + tail && |d| >= 1 && !IsSpace(d[0])
    ensures TrimStart(s) == t
  {
    assert s[0] == ' ' && s[1..] == t;
    assert t[0] == d[0];
    TrimStartNone(t);
    TrimStartSpace(s);
  }

  lemma {:induction false} FirstWord(t: string, d: string, tail: string)
    requires t == d + tail && forall i :: 0 <= i < |d| ==> !IsSpace(d[i])
    requires tail == [] || tail[0] == ' '
    ensures WordEnd(t, 0) == |d| && t[..|d|] == d && t[|d|..] == tail
  {
    forall j | 0 <= j < |d| ensures !IsSpace(t[j]) {
      assert t[j] == d[j];
    }
    WordEndAfter(d, tail);
    WordEndAt(t, 0, |d|);
  }

  lemma WordEndAfter(d: string, tail: string)
    requires tail == [] || tail[0] == ' '
    ensures |d| == |d + tail| || IsSpace((d + tail)[|d|])
  {
  }

  lemma {:induction false} TrimStartSpace(s: string)
    requires s != [] && IsSpace(s[0])
    ensures TrimStart(s) == TrimStart(s[1..])
  {
  }

  /** The first word of `s` and then the words after it. */
  lemma {:induction false} WordsStep(s: string, t: string, d: string, tail: string)
    requires TrimStart(s) == t && t != [] && WordEnd(t, 0) == |d| <= |t|
    requires t[..|d|] == d && t[|d|..] == tail
    ensures Words(s) == [d] + Words(tail)
  {
  }

  /** Written counts are empty or start with a space. */
  lemma {:induction false} CountsStart(cs: seq<nat>)
    ensures FormatCounts(cs) == [] || FormatCounts(cs)[0] == ' '
  {
  }

  lemma {:induction false} WordEndAt(s: string, i: nat, k: nat)
    requires i <= k <= |s|
    requires forall j :: i <= j < k ==> !IsSpace(s[j])
    requires k == |s| || IsSpace(s[k])
    ensures WordEnd(s, i) == k
    decreases k - i
  {
    if i < k {
      WordEndAt(s, i + 1, k);
    }
  }

  lemma {:induction false} CountsParse(cs: seq<nat>, ds: seq<string>)
    requires |ds| == |cs| && forall i :: 0 <= i < |cs| ==> ParseUsize(ds[i]) == Some(cs[i])
    ensures CountsOf(ds) == Some(cs)
    decreases |cs|
  {
    if cs != [] {
      var n := |cs| - 1;
      CountsParse(cs[..n], ds[..n]);
      assert cs == cs[..n] + [cs[n]];
    }
  }

  // ---------------------------------------------------------------------------
  // The whole input
  // ---------------------------------------------------------------------------

  /** How `parse` sees a line: blank once trimmed, a region line, or other trimmed text. */
  datatype Line = Blank | RegionRow(region: Region) | Text(text: string)

  function Classify(line: string): Line
  {
    var t := Common.Trim(line);
    if t == [] then Blank
    else
      match RegionLine(t)
      case Some(r) => RegionRow(r)
      case None => Text(t)
  }

  function Classified(ls: seq<string>): (ks: seq<Line>)
    ensures |ks| == |ls|
  {
    seq(|ls|, k requires 0 <= k < |ls| => Classify(ls[k]))
  }

  /** A line that opens a new shape block inside a grid: digits (possibly none) and a
      final `:`. */
  predicate HeaderLike(t: string)
  {
    |t| >= 1 && t[|t| - 1] == ':' && AllDigits(t[..|t| - 1])
  }

  /** The grid rows of a block starting at line `j`: trimmed lines up to a blank line
      (consumed), a region line or a header-like line (both left in place). */
  function GridFrom(ks: seq<Line>, j: nat): (g: (seq<string>, nat))
    requires j <= |ks|
    ensures j <= g.1 <= |ks|
    decreases |ks| - j
  {
    if j == |ks| then ([], j)
    else
      match ks[j]
      case Blank => ([], j + 1)
      case RegionRow(_) => ([], j)
      case Text(t) =>
        if HeaderLike(t) then ([], j)
        else
          var rest := GridFrom(ks, j + 1);
          ([t] + rest.0, rest.1)
  }

  /** The shape blocks from line `i` on, after the blocks `acc` already read, and the
      line where the regions start.  A header is a line ending in `:`, the text before
      it a `usize`. */
  function EntriesFrom(ks: seq<Line>, i: nat, acc: seq<Entry>): (r: Result<(seq<Entry>, nat), ParseError>)
    requires i <= |ks|
    ensures r.Ok? ==> i <= r.value.1 <= |ks|
    decreases |ks| - i
  {
    if i == |ks| then Ok((acc, i))
    else
      match ks[i]
      case Blank => EntriesFrom(ks, i + 1, acc)
      case RegionRow(_) => Ok((acc, i))
      case Text(t) =>
        if t == [] || t[|t| - 1] != ':' then Err(ExpectedHeader(t))
        else
          var text := t[..|t| - 1];
          match ParseUsize(text)
          case None => Err(InvalidIndex(text))
          case Some(idx) =>
            var g := GridFrom(ks, i + 1);
            if g.0 == [] then Err(NoGridLines(idx))
            else EntriesFrom(ks, g.1, acc + [Entry(idx, g.0)])
  }

  /** The largest index among the blocks. */
  function MaxIndex(entries: seq<Entry>): (m: nat)
    requires entries != []
    ensures forall k :: 0 <= k < |entries| ==> entries[k].index <= m
    ensures exists k :: 0 <= k < |entries| && entries[k].index == m
  {
    var last := entries[|entries| - 1].index;
    if |entries| == 1 then last
    else
      var m := MaxIndex(entries[..|entries| - 1]);
      assert forall k :: 0 <= k < |entries| - 1 ==> entries[..|entries| - 1][k] == entries[k];
      if m < last then last else m
  }

  /** What each block's grid reads as. */
  function ParsedGrids(entries: seq<Entry>): (ps: seq<Result<Shape, ShapeError>>)
    ensures |ps| == |entries|
  {
    seq(|entries|, l requires 0 <= l < |entries| => ShapeOf(entries[l].grid))
  }

  /** The slots after placing the blocks from `k` on, in order, where `parsed[l]` is what
      block `l`'s grid reads as: a slot already taken is a duplicate, and a block whose
      grid is not a shape stops with that error. */
  function AssignFrom(entries: seq<Entry>, parsed: seq<Result<Shape, ShapeError>>, k: nat,
                      slots: seq<Option<Shape>>): Result<seq<Option<Shape>>, ParseError>
    requires k <= |entries| == |parsed|
    requires forall l :: 0 <= l < |entries| ==> entries[l].index < |slots|
    decreases |entries| - k
  {
    if k == |entries| then Ok(slots)
    else
      var e := entries[k];
      if slots[e.index].Some? then Err(DuplicateIndex(e.index))
      else
        match parsed[k]
        case Err(x) => Err(BadShape(x))
        case Ok(shape) => AssignFrom(entries, parsed, k + 1, slots[e.index := Some(shape)])
  }

  /** The shapes of the slots from `k` on after `acc`; the first empty slot is a
      missing index. */
  function CollectFrom(slots: seq<Option<Shape>>, k: nat, acc: seq<Shape>): Result<seq<Shape>, ParseError>
    requires k <= |slots|
    decreases |slots| - k
  {
    if k == |slots| then Ok(acc)
    else
      match slots[k]
      case None => Err(MissingIndex(k))
      case Some(shape) => CollectFrom(slots, k + 1, acc + [shape])
  }

  /** The region lines from line `j` on, after `acc`; other lines are skipped and a
      region whose count list is not `n` long stops with an error. */
  function RegionsFrom(ks: seq<Line>, j: nat, n: nat, acc: seq<Region>): Result<seq<Region>, ParseError>
    requires j <= |ks|
    decreases |ks| - j
  {
    if j == |ks| then Ok(acc)
    else
      match ks[j]
      case RegionRow(r) =>
        if |r.counts| != n then Err(CountMismatch(|r.counts|, n))
        else RegionsFrom(ks, j + 1, n, acc + [r])
      case _ => RegionsFrom(ks, j + 1, n, acc)
  }

  function EmptySlots(n: nat): (slots: seq<Option<Shape>>)
    ensures |slots| == n && forall k :: 0 <= k < n ==> slots[k].None?
  {
    seq(n, _ => None)
  }

  /** The shapes of the blocks, each at its block number: none at all, a number used
      twice, a grid that is no shape or a number left out is an error. */
  function ShapesOf(entries: seq<Entry>): Result<seq<Shape>, ParseError>
  {
    if entries == [] then Err(NoShapes)
    else
      match AssignFrom(entries, ParsedGrids(entries), 0, EmptySlots(MaxIndex(entries) + 1))
      case Err(e) => Err(e)
      case Ok(filled) => CollectFrom(filled, 0, [])
  }

  /** `parse`: the shapes, indexed by their block numbers, and the regions. */
  function Parse(input: string): Result<(seq<Shape>, seq<Region>), ParseError>
  {
    var ks := Classified(Lines(input));
    match EntriesFrom(ks, 0, [])
    case Err(e) => Err(e)
    case Ok(read) =>
      match ShapesOf(read.0)
      case Err(e) => Err(e)
      case Ok(shapes) =>
        match RegionsFrom(ks, read.1, |shapes|, [])
        case Err(e) => Err(e)
        case Ok(regions) => Ok((shapes, regions))
  }

  // ---------------------------------------------------------------------------
  // What a successful parse means
  // ---------------------------------------------------------------------------

  /** The rows of a block are the text lines that follow its header, none of them
      header-like, and the block ends at or just after them. */
  lemma {:induction false} GridFromMeaning(ks: seq<Line>, j: nat)
    requires j <= |ks|
    ensures var (g, e) := GridFrom(ks, j);
      && j + |g| <= |ks|
      && (forall k :: 0 <= k < |g| ==> ks[j + k] == Text(g[k]) && !HeaderLike(g[k]))
      && (e == j + |g| || (e == j + |g| + 1 && ks[j + |g|] == Blank))
      && (e == j + |g| && e < |ks| ==> ks[e].RegionRow? || (ks[e].Text? && HeaderLike(ks[e].text)))
    decreases |ks| - j
  {
    if j < |ks| && ks[j].Text? && !HeaderLike(ks[j].text) {
      GridFromMeaning(ks, j + 1);
      var rest := GridFrom(ks, j + 1);
      var g := [ks[j].text] + rest.0;
      assert GridFrom(ks, j) == (g, rest.1);
      forall k | 0 <= k < |g| ensures ks[j + k] == Text(g[k]) && !HeaderLike(g[k]) {
        if k > 0 {
          assert g[k] == rest.0[k - 1];
        }
      }
    }
  }

  /** Every block read has at least one row, and the blocks read before stay first. */
  lemma {:induction false} EntriesFromMeaning(ks: seq<Line>, i: nat, acc: seq<Entry>)
    requires i <= |ks|
    requires forall k :: 0 <= k < |acc| ==> acc[k].grid != []
    ensures var r := EntriesFrom(ks, i, acc);
      r.Ok? ==> && |acc| <= |r.value.0| && r.value.0[..|acc|] == acc
                && (forall k :: 0 <= k < |r.value.0| ==> r.value.0[k].grid != [])
                && (r.value.1 < |ks| ==> ks[r.value.1].RegionRow?)
    decreases |ks| - i
  {
    if i < |ks| {
      match ks[i]
      case Blank =>
        EntriesFromMeaning(ks, i + 1, acc);
      case RegionRow(_) =>
      case Text(t) =>
        if t != [] && t[|t| - 1] == ':' && ParseUsize(t[..|t| - 1]).Some? {
          var g := GridFrom(ks, i + 1);
          if g.0 != [] {
            var acc' := acc + [Entry(ParseUsize(t[..|t| - 1]).value, g.0)];
            EntriesFromMeaning(ks, g.1, acc');
            var r := EntriesFrom(ks, g.1, acc');
            if r.Ok? {
              assert r.value.0[..|acc|] == r.value.0[..|acc'|][..|acc|];
            }
          }
        }
    }
  }

  /** Filling the slots succeeds only on fresh, distinct indices whose grids are
      shapes; each such index then holds its shape, the slots filled before are kept and
      nothing else is filled. */
  lemma {:induction false} AssignFromMeaning(entries: seq<Entry>, parsed: seq<Result<Shape, ShapeError>>,
                                             k: nat, slots: seq<Option<Shape>>)
    requires k <= |entries| == |parsed|
    requires forall l :: 0 <= l < |entries| ==> entries[l].index < |slots|
    requires AssignFrom(entries, parsed, k, slots).Ok?
    ensures var f := AssignFrom(entries, parsed, k, slots).value;
      && |f| == |slots|
      && (forall l :: k <= l < |entries| ==> slots[entries[l].index].None?)
      && (forall l, m :: k <= l < m < |entries| ==> entries[l].index != entries[m].index)
      && (forall l :: k <= l < |entries| ==> f[entries[l].index].Some? && parsed[l] == Ok(f[entries[l].index].value))
      && (forall i :: 0 <= i < |slots| && slots[i].Some? ==> f[i] == slots[i])
      && (forall i :: 0 <= i < |slots| && f[i].Some? && slots[i].None? ==> Numbered(entries, k, i))
    decreases |entries| - k
  {
    if k < |entries| {
      var e := entries[k];
      var next := slots[e.index := Some(parsed[k].value)];
      AssignFromMeaning(entries, parsed, k + 1, next);
      var f := AssignFrom(entries, parsed, k + 1, next).value;
      assert AssignFrom(entries, parsed, k, slots).value == f;
      forall i | 0 <= i < |slots| && f[i].Some? && slots[i].None? ensures Numbered(entries, k, i) {
        if i == e.index {
          assert entries[k].index == i;
        } else {
          assert next[i] == slots[i];
          var l :| k + 1 <= l < |entries| && entries[l].index == i;
        }
      }
    }
  }

  /** Some block from `k` on carries number `i`. */
  ghost predicate Numbered(entries: seq<Entry>, k: nat, i: nat)
  {
    exists l :: k <= l < |entries| && entries[l].index == i
  }

  /** Collecting succeeds exactly when every slot from `k` on is filled; the shapes
      are then those slots' contents after `acc`, and otherwise the first empty slot is
      reported. */
  lemma {:induction false} CollectFromMeaning(slots: seq<Option<Shape>>, k: nat, acc: seq<Shape>)
    requires k <= |slots|
    ensures var r := CollectFrom(slots, k, acc);
      && (r.Ok? <==> forall i :: k <= i < |slots| ==> slots[i].Some?)
      && (r.Ok? ==> && |r.value| == |acc| + |slots| - k && r.value[..|acc|] == acc
                    && forall i :: k <= i < |slots| ==> slots[i] == Some(r.value[|acc| + i - k]))
      && (r.Err? ==> exists i :: k <= i < |slots| && r.error == MissingIndex(i) && slots[i].None?
                                && forall j :: k <= j < i ==> slots[j].Some?)
    decreases |slots| - k
  {
    if k < |slots| && slots[k].Some? {
      var acc' := acc + [slots[k].value];
      CollectFromMeaning(slots, k + 1, acc');
      var r := CollectFrom(slots, k + 1, acc');
      if r.Ok? {
        assert r.value[..|acc|] == r.value[..|acc'|][..|acc|];
        assert r.value[|acc|] == r.value[..|acc'|][|acc|];
      }
    } else if k < |slots| {
      assert CollectFrom(slots, k, acc) == Err(MissingIndex(k));
    }
  }

  /** The table built from the blocks: one shape per number below `n`, each what the
      one block with that number reads as. */
  lemma {:induction false} TableMeaning(entries: seq<Entry>, parsed: seq<Result<Shape, ShapeError>>, n: nat, shapes: seq<Shape>)
    requires |parsed| == |entries|
    requires forall l :: 0 <= l < |entries| ==> entries[l].index < n
    requires AssignFrom(entries, parsed, 0, EmptySlots(n)).Ok?
    requires CollectFrom(AssignFrom(entries, parsed, 0, EmptySlots(n)).value, 0, []) == Ok(shapes)
    ensures |shapes| == n
    ensures forall l :: 0 <= l < |entries| ==> parsed[l] == Ok(shapes[entries[l].index])
    ensures forall l, m :: 0 <= l < m < |entries| ==> entries[l].index != entries[m].index
    ensures forall i :: 0 <= i < n ==> Numbered(entries, 0, i)
  {
    AssignFromMeaning(entries, parsed, 0, EmptySlots(n));
    var filled := AssignFrom(entries, parsed, 0, EmptySlots(n)).value;
    CollectFromMeaning(filled, 0, []);
    assert forall i :: 0 <= i < n ==> filled[i] == Some(shapes[i]);
  }

  /** The shapes of the blocks: one per number from 0 to the largest, each what the one
      block with that number reads as (`ParsedGrids`), all well formed. */
  lemma {:induction false} ShapesOfMeaning(entries: seq<Entry>)
    requires ShapesOf(entries).Ok?
    ensures var shapes := ShapesOf(entries).value;
      && entries != [] && |shapes| == MaxIndex(entries) + 1
      && (forall l :: 0 <= l < |entries| ==>
            entries[l].index < |shapes| && ParsedGrids(entries)[l] == Ok(shapes[entries[l].index]))
      && (forall l, m :: 0 <= l < m < |entries| ==> entries[l].index != entries[m].index)
      && (forall i :: 0 <= i < |shapes| ==> Numbered(entries, 0, i))
      && AllWellFormed(shapes)
  {
    var parsed := ParsedGrids(entries);
    var shapes := ShapesOf(entries).value;
    TableMeaning(entries, parsed, MaxIndex(entries) + 1, shapes);
    ParsedWellFormedAll(entries);
    TableWellFormed(entries, parsed, shapes);
  }

  /** Every block that reads as a shape reads as a well-formed one. */
  lemma ParsedWellFormedAll(entries: seq<Entry>)
    ensures forall l :: 0 <= l < |entries| && ParsedGrids(entries)[l].Ok? ==> WellFormed(ParsedGrids(entries)[l].value)
  {
    forall l | 0 <= l < |entries| && ParsedGrids(entries)[l].Ok? ensures WellFormed(ParsedGrids(entries)[l].value) {
      ParsedWellFormed(entries[l].grid);
    }
  }

  /** A table whose every shape is what some block reads as holds well-formed shapes only,
      when every block that reads as a shape reads as a well-formed one. */
  lemma TableWellFormed(entries: seq<Entry>, parsed: seq<Result<Shape, ShapeError>>, shapes: seq<Shape>)
    requires |parsed| == |entries|
    requires forall l :: 0 <= l < |entries| && parsed[l].Ok? ==> WellFormed(parsed[l].value)
    requires forall l :: 0 <= l < |entries| ==> entries[l].index < |shapes| && parsed[l] == Ok(shapes[entries[l].index])
    requires forall i :: 0 <= i < |shapes| ==> Numbered(entries, 0, i)
    ensures AllWellFormed(shapes)
  {
    forall i | 0 <= i < |shapes| ensures WellFormed(shapes[i]) {
      assert Numbered(entries, 0, i);
      var l :| 0 <= l < |entries| && entries[l].index == i;
      assert parsed[l] == Ok(shapes[i]);
    }
  }

  /** A line is classified as a region exactly when it is a region line. */
  lemma ClassifyRegion(line: string)
    ensures Classify(line).RegionRow? <==> RegionLine(line).Some?
    ensures Classify(line).RegionRow? ==> Classify(line).region == RegionLine(line).value
  {
    var u := TrimStart(line);
    var t := Common.Trim(line);
    if t != [] {
      assert t[0] == u[0];
      TrimStartNone(t);
      TrimEndNone(t);
    }
    assert Common.Trim(t) == t;
  }

  /** Reading the regions succeeds exactly when every region line from `j` on has `n`
      counts, and then every region read has `n` counts. */
  lemma {:induction false} RegionsFromMeaning(ks: seq<Line>, j: nat, n: nat, acc: seq<Region>)
    requires j <= |ks|
    ensures var r := RegionsFrom(ks, j, n, acc);
      && (r.Ok? <==> forall l :: j <= l < |ks| && ks[l].RegionRow? ==> |ks[l].region.counts| == n)
      && (r.Ok? ==> && |acc| <= |r.value| && r.value[..|acc|] == acc
                    && forall k :: |acc| <= k < |r.value| ==> |r.value[k].counts| == n)
      && (r.Err? ==> r.error.CountMismatch? && r.error.shapes == n && r.error.counts != n)
    decreases |ks| - j
  {
    if j < |ks| {
      if ks[j].RegionRow? && |ks[j].region.counts| == n {
        var acc' := acc + [ks[j].region];
        RegionsFromMeaning(ks, j + 1, n, acc');
        var r := RegionsFrom(ks, j + 1, n, acc');
        if r.Ok? {
          assert r.value[..|acc|] == r.value[..|acc'|][..|acc|];
          assert r.value[|acc|] == r.value[..|acc'|][|acc|];
        }
      } else if !ks[j].RegionRow? {
        RegionsFromMeaning(ks, j + 1, n, acc);
      }
    }
  }

  /** A successful parse gives at least one shape, every shape well formed, and every
      region a count for each shape. */
  lemma ParseMeaning(input: string)
    requires Parse(input).Ok?
    ensures var (shapes, regions) := Parse(input).value;
      && |shapes| >= 1 && AllWellFormed(shapes)
      && forall k :: 0 <= k < |regions| ==> |regions[k].counts| == |shapes|
  {
    var ks := Classified(Lines(input));
    var read := EntriesFrom(ks, 0, []).value;
    ShapesOfMeaning(read.0);
    var shapes := ShapesOf(read.0).value;
    RegionsFromMeaning(ks, read.1, |shapes|, []);
  }

  // ---------------------------------------------------------------------------
  // The reading loops
  // ---------------------------------------------------------------------------

  /** The inner loop of `parse`: the rows of one block. */
  method ReadRows(ks: seq<Line>, j: nat) returns (grid: seq<string>, next: nat)
    requires j <= |ks|
    ensures (grid, next) == GridFrom(ks, j)
  {
    grid, next := [], j;
    assert [] + GridFrom(ks, j).0 == GridFrom(ks, j).0;
    while next < |ks|
      invariant j <= next <= |ks|
      invariant GridFrom(ks, j) == (grid + GridFrom(ks, next).0, GridFrom(ks, next).1)
      decreases |ks| - next
    {
      match ks[next]
      case Blank =>
        assert grid + [] == grid;
        next := next + 1;
        return;
      case RegionRow(_) =>
        assert grid + [] == grid;
        return;
      case Text(t) =>
        if HeaderLike(t) {
          assert grid + [] == grid;
          return;
        }
        AppendAssoc(grid, [t], GridFrom(ks, next + 1).0);
        grid, next := grid + [t], next + 1;
    }
    assert grid + [] == grid;
  }

  /** The outer loop of `parse`: the shape blocks, up to the first region line. */
  method ReadEntries(ks: seq<Line>) returns (r: Result<(seq<Entry>, nat), ParseError>)
    ensures r == EntriesFrom(ks, 0, [])
  {
    var entries: seq<Entry>, i: nat := [], 0;
    while i < |ks|
      invariant i <= |ks|
      invariant EntriesFrom(ks, i, entries) == EntriesFrom(ks, 0, [])
      decreases |ks| - i
    {
      match ks[i]
      case Blank =>
        i := i + 1;
      case RegionRow(_) =>
        break;
      case Text(t) =>
        if t == [] || t[|t| - 1] != ':' {
          return Err(ExpectedHeader(t));
        }
        var text := t[..|t| - 1];
        var idx := ParseUsize(text);
        if idx.None? {
          return Err(InvalidIndex(text));
        }
        var grid, next := ReadRows(ks, i + 1);
        if grid == [] {
          return Err(NoGridLines(idx.value));
        }
        entries, i := entries + [Entry(idx.value, grid)], next;
    }
    return Ok((entries, i));
  }

  /** Filling the table of `n` slots from the blocks. */
  method AssignShapes(entries: seq<Entry>, n: nat) returns (r: Result<seq<Option<Shape>>, ParseError>)
    requires forall l :: 0 <= l < |entries| ==> entries[l].index < n
    ensures r == AssignFrom(entries, ParsedGrids(entries), 0, EmptySlots(n))
  {
    var slots := EmptySlots(n);
    for k := 0 to |entries|
      invariant |slots| == n
      invariant AssignFrom(entries, ParsedGrids(entries), k, slots)
             == AssignFrom(entries, ParsedGrids(entries), 0, EmptySlots(n))
    {
      var e := entries[k];
      if slots[e.index].Some? {
        return Err(DuplicateIndex(e.index));
      }
      var shape := ParseShape(e.grid);
      assert shape == ParsedGrids(entries)[k];
      if shape.Err? {
        return Err(BadShape(shape.error));
      }
      slots := slots[e.index := Some(shape.value)];
    }
    return Ok(slots);
  }

  /** Turning the table into a list, failing at the first empty slot. */
  method CollectShapes(slots: seq<Option<Shape>>) returns (r: Result<seq<Shape>, ParseError>)
    ensures r == CollectFrom(slots, 0, [])
  {
    var shapes: seq<Shape> := [];
    for k := 0 to |slots|
      invariant CollectFrom(slots, k, shapes) == CollectFrom(slots, 0, [])
    {
      if slots[k].None? {
        return Err(MissingIndex(k));
      }
      shapes := shapes + [slots[k].value];
    }
    return Ok(shapes);
  }

  /** The last loop of `parse`: every remaining region line. */
  method ReadRegions(ks: seq<Line>, i: nat, n: nat) returns (r: Result<seq<Region>, ParseError>)
    requires i <= |ks|
    ensures r == RegionsFrom(ks, i, n, [])
  {
    var regions: seq<Region> := [];
    for j := i to |ks|
      invariant RegionsFrom(ks, j, n, regions) == RegionsFrom(ks, i, n, [])
    {
      if ks[j].RegionRow? {
        var region := ks[j].region;
        if |region.counts| != n {
          return Err(CountMismatch(|region.counts|, n));
        }
        regions := regions + [region];
      }
    }
    return Ok(regions);
  }

  /** The middle of `parse`: the table of shapes. */
  method BuildShapes(entries: seq<Entry>) returns (r: Result<seq<Shape>, ParseError>)
    ensures r == ShapesOf(entries)
  {
    if entries == [] {
      return Err(NoShapes);
    }
    var filled := AssignShapes(entries, MaxIndex(entries) + 1);
    if filled.Err? {
      return Err(filled.error);
    }
    r := CollectShapes(filled.value);
  }

  /** `parse`. */
  method ParseInput(input: string) returns (r: Result<(seq<Shape>, seq<Region>), ParseError>)
    ensures r == Parse(input)
  {
    var ks := Classified(Lines(input));
    var read := ReadEntries(ks);
    if read.Err? {
      return Err(read.error);
    }
    var shapes := BuildShapes(read.value.0);
    if shapes.Err? {
      return Err(shapes.error);
    }
    var regions := ReadRegions(ks, read.value.1, |shapes.value|);
    if regions.Err? {
      return Err(regions.error);
    }
    return Ok((shapes.value, regions.value));
  }
}
