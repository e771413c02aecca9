/** Day 11: a directed graph of named devices, one line `name: out1 out2 ...` per device.
    Part 1 counts the paths from `you` to `out`; part 2 counts the paths from `svr` to
    `out` that visit both `dac` and `fft`, as the sum of two products of segment counts
    (dac before fft and fft before dac), each segment avoiding the other checkpoint.
    Counting is a depth-first walk with a memo table over the node ids. */
module Day11 {
  import opened Common

  // ---------------------------------------------------------------------------
  // Node ids
  // ---------------------------------------------------------------------------

  const OUT_ID: nat := 0
  const YOU_ID: nat := 1
  const SVR_ID: nat := 2
  const DAC_ID: nat := 3
  const FFT_ID: nat := 4

  /** `u16::MAX`: the "forbidden" node of a count that forbids nothing.  The parser hands
      out ids from 0 upwards, so no node of a graph with fewer names has this id. */
  const NO_NODE: nat := 65535

  /** `u64::MAX`: the memo entry of a node whose count is not known yet. */
  const NOT_COMPUTED: nat := U64_LIMIT - 1

  /** The parsed graph: `adj[u]` lists the ids of `u`'s outputs in the order written. */
  datatype Graph = Graph(adj: seq<seq<nat>>)

  datatype ParseError = InvalidLineFormat

  // ---------------------------------------------------------------------------
  // Lines of the input
  // ---------------------------------------------------------------------------

  /** One device line: the name before the first colon and the words after it. */
  datatype Entry = Entry(source: string, targets: seq<string>)

  /** How the parser reads one line: blank once trimmed, without a colon (an error), or
      a device line. */
  datatype LineKind = BlankLine | BadLine | EntryLine(entry: Entry)

  function Classify(line: string): LineKind
  {
    var t := Trim(line);
    if t == [] then BlankLine
    else
      var colon := IndexOf(t, ':', 0);
      if colon == |t| then BadLine
      else EntryLine(Entry(Trim(t[..colon]), Words(t[colon + 1..])))
  }

  /** A line is rejected exactly when it is not blank and holds no colon; otherwise the
      source name is what precedes the FIRST colon. */
  lemma ClassifyMeaning(line: string)
    ensures Classify(line) == BlankLine <==> Trim(line) == []
    ensures Classify(line) == BadLine <==> Trim(line) != [] && ':' !in Trim(line)
    ensures Classify(line).EntryLine? ==>
              exists c :: 0 <= c < |Trim(line)| && Trim(line)[c] == ':' && ':' !in Trim(line)[..c]
                          && Classify(line).entry == Entry(Trim(Trim(line)[..c]), Words(Trim(line)[c + 1..]))
  {
    var t := Trim(line);
    if t != [] {
      var c := IndexOf(t, ':', 0);
      if c == |t| {
        assert ':' !in t by {
          if ':' in t { assert false; }
        }
        assert Classify(line) == BadLine;
      } else {
        assert ':' !in t[..c] by {
          if ':' in t[..c] { assert false; }
        }
        assert Classify(line) == EntryLine(Entry(Trim(t[..c]), Words(t[c + 1..])));
      }
    }
  }

  /** The kind of every line, in order. */
  function KindsOf(ls: seq<string>): (ks: seq<LineKind>)
    ensures |ks| == |ls|
  {
    MapEach(Classify, ls)
  }

  /** `f` applied to each element, in order. */
  function MapEach<A, B>(f: A -> B, s: seq<A>): (r: seq<B>)
    ensures |r| == |s|
    decreases |s|
  {
    if s == [] then [] else MapEach(f, s[..|s| - 1]) + [f(s[|s| - 1])]
  }

  lemma {:induction false} MapEachAt<A, B>(f: A -> B, s: seq<A>, k: nat)
    requires k < |s|
    ensures MapEach(f, s)[k] == f(s[k])
    decreases |s|
  {
    var front := s[..|s| - 1];
    if k < |front| {
      MapEachAt(f, front, k);
      assert front[k] == s[k];
    }
  }

  lemma KindAt(ls: seq<string>, k: nat)
    requires k < |ls|
    ensures KindsOf(ls)[k] == Classify(ls[k])
  {
    MapEachAt(Classify, ls, k);
  }

  /** The entries of the device lines, in order, or the error of a rejected line. */
  function EntriesOf(ks: seq<LineKind>): Result<seq<Entry>, ParseError>
    decreases |ks|
  {
    if ks == [] then Ok([])
    else
      match EntriesOf(ks[..|ks| - 1])
      case Err(e) => Err(e)
      case Ok(es) =>
        match ks[|ks| - 1]
        case BlankLine => Ok(es)
        case BadLine => Err(InvalidLineFormat)
        case EntryLine(e) => Ok(es + [e])
  }

  /** Parsing fails exactly when some line is rejected. */
  lemma {:induction false} EntriesErrorMeaning(ks: seq<LineKind>)
    ensures EntriesOf(ks).Err? <==> BadLine in ks
    decreases |ks|
  {
    if ks != [] {
      EntriesErrorMeaning(ks[..|ks| - 1]);
      assert ks == ks[..|ks| - 1] + [ks[|ks| - 1]];
    }
  }

  /** How one more line changes the parse. */
  lemma EntriesSnoc(ks: seq<LineKind>, k: nat)
    requires k < |ks|
    ensures EntriesOf(ks[..k]).Err? ==> EntriesOf(ks[..k + 1]) == EntriesOf(ks[..k])
    ensures EntriesOf(ks[..k]).Ok? && ks[k] == BlankLine ==> EntriesOf(ks[..k + 1]) == EntriesOf(ks[..k])
    ensures EntriesOf(ks[..k]).Ok? && ks[k] == BadLine ==> EntriesOf(ks[..k + 1]) == Err(InvalidLineFormat)
    ensures EntriesOf(ks[..k]).Ok? && ks[k].EntryLine? ==>
              EntriesOf(ks[..k + 1]) == Ok(EntriesOf(ks[..k]).value + [ks[k].entry])
  {
    assert ks[..k + 1][..k] == ks[..k];
  }

  /** What the lines up to `k` give is a prefix of what all lines give. */
  lemma {:induction false} EntriesPrefix(ks: seq<LineKind>, k: nat)
    requires k <= |ks| && EntriesOf(ks).Ok?
    ensures EntriesOf(ks[..k]).Ok?
    ensures |EntriesOf(ks[..k]).value| <= |EntriesOf(ks).value|
    ensures EntriesOf(ks[..k]).value == EntriesOf(ks).value[..|EntriesOf(ks[..k]).value|]
    decreases |ks|
  {
    if k < |ks| {
      var front := ks[..|ks| - 1];
      assert front[..k] == ks[..k];
      EntriesPrefix(front, k);
    } else {
      assert ks[..k] == ks;
    }
  }

  lemma {:induction false} EntriesFailFrom(ks: seq<LineKind>, k: nat)
    requires k <= |ks| && EntriesOf(ks[..k]).Err?
    ensures EntriesOf(ks) == Err(InvalidLineFormat)
  {
    if EntriesOf(ks).Ok? {
      EntriesPrefix(ks, k);
    } else {
      assert EntriesOf(ks).error.InvalidLineFormat?;
    }
  }

  // ---------------------------------------------------------------------------
  // Interning names
  // ---------------------------------------------------------------------------

  /** The name table: each known name's id and the id the next new name gets. */
  datatype Table = Table(ids: map<string, nat>, next: nat)

  const INITIAL: Table :=
    Table(map["out" := OUT_ID, "you" := YOU_ID, "svr" := SVR_ID, "dac" := DAC_ID, "fft" := FFT_ID], 5)

  function Intern(t: Table, name: string): Table
  {
    if name in t.ids then t else Table(t.ids[name := t.next], t.next + 1)
  }

  function InternAll(t: Table, names: seq<string>): Table
    decreases |names|
  {
    if names == [] then t else Intern(InternAll(t, names[..|names| - 1]), names[|names| - 1])
  }

  /** Every name the lines mention, in reading order: each line's source, then its targets. */
  function NamesOf(es: seq<Entry>): seq<string>
    decreases |es|
  {
    if es == [] then []
    else NamesOf(es[..|es| - 1]) + [es[|es| - 1].source] + es[|es| - 1].targets
  }

  function TableOf(es: seq<Entry>): Table { InternAll(INITIAL, NamesOf(es)) }

  /** The ids of a table are exactly `0 .. next - 1`, one per name. */
  ghost predicate Proper(t: Table)
  {
    && (forall a :: a in t.ids ==> t.ids[a] < t.next)
    && (forall a, b :: a in t.ids && b in t.ids && a != b ==> t.ids[a] != t.ids[b])
    && |t.ids.Keys| == t.next
  }

  /** `u` keeps every id `t` gave and hands out no smaller fresh id. */
  ghost predicate Extends(t: Table, u: Table)
  {
    && t.next <= u.next
    && (forall a :: a in t.ids ==> a in u.ids && u.ids[a] == t.ids[a])
    && (forall a :: a in u.ids && a !in t.ids ==> t.next <= u.ids[a])
  }

  lemma InitialProper()
    ensures Proper(INITIAL)
  {
    var ks := INITIAL.ids.Keys;
    assert ks == {"out", "you", "svr", "dac", "fft"};
    assert |{"out", "you", "svr", "dac", "fft"}| == 5;
  }

  lemma InternStep(t: Table, name: string)
    requires Proper(t)
    ensures Proper(Intern(t, name)) && Extends(t, Intern(t, name))
    ensures name in Intern(t, name).ids
    ensures name !in t.ids ==> Intern(t, name).ids[name] == t.next && Intern(t, name).next == t.next + 1
  {
    if name !in t.ids {
      var u := Intern(t, name);
      assert u.ids.Keys == t.ids.Keys + {name};
    }
  }

  lemma {:induction false} InternAllMeaning(t: Table, names: seq<string>)
    requires Proper(t)
    ensures Proper(InternAll(t, names)) && Extends(t, InternAll(t, names))
    ensures forall w :: w in names ==> w in InternAll(t, names).ids
    ensures forall a :: a in InternAll(t, names).ids ==> a in t.ids || a in names
    decreases |names|
  {
    if names != [] {
      var front := names[..|names| - 1];
      InternAllMeaning(t, front);
      InternStep(InternAll(t, front), names[|names| - 1]);
      forall w | w in names ensures w in InternAll(t, names).ids {
        if w != names[|names| - 1] {
          var i :| 0 <= i < |names| && names[i] == w;
          assert front[i] == w;
        }
      }
    }
  }

  /** A name seen for the first time at position `i` gets the next free id at that point:
      new names are numbered in order of first appearance. */
  lemma {:induction false} FirstSeen(t: Table, names: seq<string>, i: nat)
    requires Proper(t) && i < |names|
    requires names[i] !in InternAll(t, names[..i]).ids
    ensures names[i] in InternAll(t, names).ids
    ensures InternAll(t, names).ids[names[i]] == InternAll(t, names[..i]).next
  {
    var head, rest := names[..i + 1], names[i + 1..];
    var before := InternAll(t, names[..i]);
    assert head[..i] == names[..i] && head[i] == names[i];
    var mid := InternAll(t, head);
    assert mid == Intern(before, names[i]);
    InternAllMeaning(t, names[..i]);
    InternStep(before, names[i]);
    InternAllMeaning(mid, rest);
    InternAllAppend(t, head, rest);
    SplitJoin(names, i + 1);
  }

  lemma {:induction false} InternAllAppend(t: Table, a: seq<string>, b: seq<string>)
    ensures InternAll(t, a + b) == InternAll(InternAll(t, a), b)
    decreases |b|
  {
    if b == [] {
      assert a + b == a;
    } else {
      var b' := b[..|b| - 1];
      assert (a + b)[..|a + b| - 1] == a + b';
      InternAllAppend(t, a, b');
    }
  }

  /** The final table of a parse: special names keep their fixed ids, every mentioned
      name has an id, no other name has one, and the ids are `0 .. next - 1`. */
  lemma {:induction false} TableMeaning(es: seq<Entry>)
    ensures Proper(TableOf(es)) && Extends(INITIAL, TableOf(es))
    ensures forall w :: w in NamesOf(es) ==> w in TableOf(es).ids
    ensures forall a :: a in TableOf(es).ids ==> a in INITIAL.ids || a in NamesOf(es)
    ensures TableOf(es).next >= 5
  {
    InitialProper();
    InternAllMeaning(INITIAL, NamesOf(es));
  }

  // ---------------------------------------------------------------------------
  // Adjacency lists
  // ---------------------------------------------------------------------------

  /** Every name of entry `e` has an id in `t`. */
  ghost predicate KnowsEntry(t: Table, e: Entry)
  {
    e.source in t.ids && AllKnown(t.ids, e.targets)
  }

  /** Every one of `names` has an id (kept recursive, so that it is not unfolded
      next to the text functions that produce the names). */
  ghost predicate AllKnown(ids: map<string, nat>, names: seq<string>)
    decreases |names|
  {
    names == [] || (names[|names| - 1] in ids && AllKnown(ids, names[..|names| - 1]))
  }

  lemma {:induction false} AllKnownMeaning(ids: map<string, nat>, names: seq<string>)
    ensures AllKnown(ids, names) <==> forall w :: w in names ==> w in ids
    decreases |names|
  {
    if names != [] {
      var front := names[..|names| - 1];
      AllKnownMeaning(ids, front);
      assert names == front + [names[|names| - 1]];
    }
  }

  ghost predicate Knows(t: Table, es: seq<Entry>)
  {
    forall k :: 0 <= k < |es| ==> KnowsEntry(t, es[k])
  }

  lemma {:induction false} TableKnows(es: seq<Entry>)
    ensures Knows(TableOf(es), es)
    decreases |es|
  {
    TableMeaning(es);
    forall k | 0 <= k < |es| ensures KnowsEntry(TableOf(es), es[k]) {
      NamesHold(es, k);
      AllKnownMeaning(TableOf(es).ids, es[k].targets);
    }
  }

  lemma {:induction false} NamesHold(es: seq<Entry>, k: nat)
    requires k < |es|
    ensures es[k].source in NamesOf(es)
    ensures forall w :: w in es[k].targets ==> w in NamesOf(es)
    decreases |es|
  {
    var front := es[..|es| - 1];
    if k < |front| {
      assert front[k] == es[k];
      NamesHold(front, k);
    }
  }

  /** The ids of `names`, in order (`map(|t| name_to_id[t])`). */
  function Lookup(ids: map<string, nat>, names: seq<string>): (r: seq<nat>)
    requires AllKnown(ids, names)
    ensures |r| == |names|
    decreases |names|
  {
    if names == [] then [] else Lookup(ids, names[..|names| - 1]) + [ids[names[|names| - 1]]]
  }

  /** Entry `j` of the lookup is the id of name `j`. */
  lemma {:induction false} LookupAt(ids: map<string, nat>, names: seq<string>, j: nat)
    requires AllKnown(ids, names) && j < |names|
    ensures names[j] in ids && Lookup(ids, names)[j] == ids[names[j]]
    decreases |names|
  {
    var front := names[..|names| - 1];
    if j < |front| {
      LookupAt(ids, front, j);
      assert front[j] == names[j];
    }
  }

  /** Looked-up ids are ids of the table. */
  lemma {:induction false} LookupBounded(t: Table, names: seq<string>)
    requires Proper(t) && AllKnown(t.ids, names)
    ensures forall v :: v in Lookup(t.ids, names) ==> v < t.next
    decreases |names|
  {
    if names != [] {
      LookupBounded(t, names[..|names| - 1]);
    }
  }

  /** The second pass: start from `next` empty lists and let each line overwrite its
      source's list with its targets' ids. */
  function AdjOf(es: seq<Entry>, t: Table): (adj: seq<seq<nat>>)
    requires Knows(t, es) && Proper(t)
    ensures |adj| == t.next
    decreases |es|
  {
    if es == [] then seq(t.next, _ => [])
    else
      var e := es[|es| - 1];
      AdjOf(es[..|es| - 1], t)[t.ids[e.source] := Lookup(t.ids, e.targets)]
  }

  /** A node that no line names as its source has no outputs; otherwise its outputs are
      the targets of the LAST line naming it. */
  lemma {:induction false} AdjMeaning(es: seq<Entry>, t: Table, u: nat)
    requires Knows(t, es) && Proper(t) && u < t.next
    ensures (forall k :: 0 <= k < |es| ==> t.ids[es[k].source] != u) ==> AdjOf(es, t)[u] == []
    ensures forall k :: 0 <= k < |es| && t.ids[es[k].source] == u
                     && (forall k' :: k < k' < |es| ==> t.ids[es[k'].source] != u)
                     ==> AdjOf(es, t)[u] == Lookup(t.ids, es[k].targets)
  {
    if forall k :: 0 <= k < |es| ==> t.ids[es[k].source] != u {
      AdjUntouched(es, t, u);
    }
    forall k | 0 <= k < |es| && t.ids[es[k].source] == u
               && (forall k' :: k < k' < |es| ==> t.ids[es[k'].source] != u)
      ensures AdjOf(es, t)[u] == Lookup(t.ids, es[k].targets)
    {
      AdjLast(es, t, u, k);
    }
  }

  lemma KnowsFront(t: Table, es: seq<Entry>)
    requires es != [] && Knows(t, es)
    ensures Knows(t, es[..|es| - 1]) && KnowsEntry(t, es[|es| - 1])
  {
    var front := es[..|es| - 1];
    forall k | 0 <= k < |front| ensures KnowsEntry(t, front[k]) {
      assert front[k] == es[k];
    }
  }

  lemma {:induction false} AdjUntouched(es: seq<Entry>, t: Table, u: nat)
    requires Knows(t, es) && Proper(t) && u < t.next
    requires forall k :: 0 <= k < |es| ==> t.ids[es[k].source] != u
    ensures AdjOf(es, t)[u] == []
    decreases |es|
  {
    if es != [] {
      var front := es[..|es| - 1];
      KnowsFront(t, es);
      forall k | 0 <= k < |front| ensures t.ids[front[k].source] != u {
        assert front[k] == es[k];
      }
      AdjUntouched(front, t, u);
    }
  }

  lemma {:induction false} AdjLast(es: seq<Entry>, t: Table, u: nat, k: nat)
    requires Knows(t, es) && Proper(t) && u < t.next
    requires k < |es| && t.ids[es[k].source] == u
    requires forall k' :: k < k' < |es| ==> t.ids[es[k'].source] != u
    ensures AdjOf(es, t)[u] == Lookup(t.ids, es[k].targets)
    decreases |es|
  {
    var front := es[..|es| - 1];
    var e := es[|es| - 1];
    KnowsFront(t, es);
    if k < |front| {
      assert t.ids[e.source] != u;
      assert front[k] == es[k];
      forall k' | k < k' < |front| ensures t.ids[front[k'].source] != u {
        assert front[k'] == es[k'];
      }
      AdjLast(front, t, u, k);
    }
  }

  /** Every output id is a node of the graph. */
  lemma {:induction false} AdjBounded(es: seq<Entry>, t: Table)
    requires Knows(t, es) && Proper(t)
    ensures forall u, v :: 0 <= u < |AdjOf(es, t)| && v in AdjOf(es, t)[u] ==> v < |AdjOf(es, t)|
    decreases |es|
  {
    if es != [] {
      AdjBounded(es[..|es| - 1], t);
      LookupBounded(t, es[|es| - 1].targets);
    }
  }

  /** `parse_graph`. */
  function GraphOf(input: string): Result<Graph, ParseError>
  {
    match EntriesOf(KindsOf(Lines(input)))
    case Err(e) => Err(e)
    case Ok(es) =>
      TableMeaning(es);
      TableKnows(es);
      Ok(Graph(AdjOf(es, TableOf(es))))
  }

  /** The parsed graph has at least the five special nodes and no dangling output. */
  lemma GraphShape(input: string)
    requires GraphOf(input).Ok?
    ensures |GraphOf(input).value.adj| >= 5
    ensures Bounded(GraphOf(input).value.adj)
  {
    var es := EntriesOf(KindsOf(Lines(input))).value;
    TableMeaning(es);
    TableKnows(es);
    AdjBounded(es, TableOf(es));
  }

  predicate Bounded(adj: seq<seq<nat>>)
  {
    forall u, v :: 0 <= u < |adj| && v in adj[u] ==> v < |adj|
  }

  /** One trimmed line split at its first colon into the source name and the target
      words; `blank` for an empty line and `found` when there is a colon. */
  method SplitLine(line: string) returns (blank: bool, found: bool, source: string, words: seq<string>)
    ensures blank <==> Classify(line) == BlankLine
    ensures found <==> Classify(line).EntryLine?
    ensures found ==> Classify(line).entry == Entry(source, words)
  {
    var t := Trim(line);
    blank, found, source, words := t == [], false, [], [];
    if blank {
      return;
    }
    var colon := IndexOf(t, ':', 0);
    if colon == |t| {
      return;
    }
    found := true;
    source := Trim(t[..colon]);
    words := Words(t[colon + 1..]);
  }

  /** The first pass: intern every name, or fail on the first rejected line. */
  method CollectNames(ls: seq<string>) returns (r: Result<Table, ParseError>)
    ensures EntriesOf(KindsOf(ls)).Err? ==> r == Err(EntriesOf(KindsOf(ls)).error)
    ensures EntriesOf(KindsOf(ls)).Ok? ==> r == Ok(TableOf(EntriesOf(KindsOf(ls)).value))
  {
    ghost var ks := KindsOf(ls);
    var ids := INITIAL.ids;
    var next := INITIAL.next;
    ghost var es: seq<Entry> := [];
    var k := 0;
    while k < |ls|
      invariant 0 <= k <= |ls|
      invariant EntriesOf(ks[..k]) == Ok(es)
      invariant Table(ids, next) == TableOf(es)
    {
      EntriesSnoc(ks, k);
      KindAt(ls, k);
      var blank, found, source, words := SplitLine(ls[k]);
      if blank {
        k := k + 1;
        continue;
      }
      if !found {
        EntriesFailFrom(ks, k + 1);
        return Err(InvalidLineFormat);
      }
      ids, next := InternEntry(ids, next, source, words, es);
      es := es + [Entry(source, words)];
      k := k + 1;
    }
    assert ks[..k] == ks;
    r := Ok(Table(ids, next));
  }

  /** The names of one device line, source first, interned in order. */
  method InternEntry(ids: map<string, nat>, next: nat, source: string, words: seq<string>, ghost es: seq<Entry>)
    returns (ids': map<string, nat>, next': nat)
    requires Table(ids, next) == TableOf(es)
    ensures Table(ids', next') == TableOf(es + [Entry(source, words)])
  {
    ids', next' := ids, next;
    ghost var names := NamesOf(es) + [source];
    assert names[..|names| - 1] == NamesOf(es);
    if source !in ids' {
      ids' := ids'[source := next'];
      next' := next' + 1;
    }
    assert Table(ids', next') == InternAll(INITIAL, names);
    ids', next' := InternWords(ids', next', words, names);
    ghost var e := Entry(source, words);
    assert NamesOf(es + [e]) == names + words by {
      assert (es + [e])[..|es|] == es;
    }
  }

  /** The targets of one line, interned in order. */
  method InternWords(ids: map<string, nat>, next: nat, words: seq<string>, ghost names: seq<string>)
    returns (ids': map<string, nat>, next': nat)
    requires Table(ids, next) == InternAll(INITIAL, names)
    ensures Table(ids', next') == InternAll(INITIAL, names + words)
  {
    ids', next' := ids, next;
    assert names + words[..0] == names;
    var j := 0;
    while j < |words|
      invariant 0 <= j <= |words|
      invariant Table(ids', next') == InternAll(INITIAL, names + words[..j])
    {
      assert (names + words[..j + 1])[..|names| + j] == names + words[..j];
      if words[j] !in ids' {
        ids' := ids'[words[j] := next'];
        next' := next' + 1;
      }
      j := j + 1;
    }
    assert words[..j] == words;
  }

  /** The second pass: each line overwrites its source's list. */
  method FillAdjacency(ls: seq<string>, t: Table, ghost es: seq<Entry>) returns (adj: array<seq<nat>>)
    requires EntriesOf(KindsOf(ls)) == Ok(es) && Proper(t) && Knows(t, es)
    ensures fresh(adj) && adj[..] == AdjOf(es, t)
  {
    adj := new seq<nat>[t.next](_ => []);
    ghost var done: seq<Entry> := [];
    FilledStart(ls, t);
    assert adj[..] == seq(t.next, _ => []);
    for k := 0 to |ls|
      invariant Filled(ls, t, k, done, adj[..])
    {
      done := FillLine(ls, t, es, k, done, adj);
    }
    FilledAll(ls, done, es);
  }

  /** Before the second pass every list is empty. */
  lemma FilledStart(ls: seq<string>, t: Table)
    requires Proper(t)
    ensures Filled(ls, t, 0, [], seq(t.next, _ => []))
  {
    assert KindsOf(ls)[..0] == [];
  }

  /** Once every line is read, the entries read are all the entries. */
  lemma FilledAll(ls: seq<string>, done: seq<Entry>, es: seq<Entry>)
    requires EntriesOf(KindsOf(ls)[..|ls|]) == Ok(done) && EntriesOf(KindsOf(ls)) == Ok(es)
    ensures done == es
  {
    assert KindsOf(ls)[..|ls|] == KindsOf(ls);
  }

  /** The second pass has read the first `k` lines, whose entries are `done`. */
  ghost predicate Filled(ls: seq<string>, t: Table, k: nat, done: seq<Entry>, adj: seq<seq<nat>>)
  {
    && k <= |ls|
    && EntriesOf(KindsOf(ls)[..k]) == Ok(done)
    && Proper(t) && Knows(t, done)
    && adj == AdjOf(done, t)
  }

  /** The second pass over line `k`. */
  method FillLine(ls: seq<string>, t: Table, ghost es: seq<Entry>, k: nat, ghost done: seq<Entry>, adj: array<seq<nat>>)
    returns (ghost done': seq<Entry>)
    requires EntriesOf(KindsOf(ls)) == Ok(es) && Knows(t, es)
    requires k < |ls| && Filled(ls, t, k, done, adj[..])
    modifies adj
    ensures Filled(ls, t, k + 1, done', adj[..])
  {
    FillStep(ls, t, es, k, done);
    done' := done;
    var blank, found, source, words := SplitLine(ls[k]);
    if !blank {
      ghost var e := Entry(source, words);
      var sid := t.ids[source];
      var targets := Lookup(t.ids, words);
      adj[sid] := targets;
      OverwriteStep(done, e, t);
      done' := done + [e];
    }
  }

  lemma {:induction false} OverwriteStep(done: seq<Entry>, e: Entry, t: Table)
    requires Proper(t) && Knows(t, done) && KnowsEntry(t, e)
    ensures Knows(t, done + [e])
    ensures AdjOf(done + [e], t) == AdjOf(done, t)[t.ids[e.source] := Lookup(t.ids, e.targets)]
  {
    assert (done + [e])[..|done|] == done;
  }

  /** In the second pass every non-blank line is a device line whose names are known. */
  lemma FillStep(ls: seq<string>, t: Table, es: seq<Entry>, k: nat, done: seq<Entry>)
    requires EntriesOf(KindsOf(ls)) == Ok(es) && Knows(t, es)
    requires k < |ls| && EntriesOf(KindsOf(ls)[..k]) == Ok(done)
    ensures Classify(ls[k]) == KindsOf(ls)[k]
    ensures KindsOf(ls)[k] == BlankLine ==> EntriesOf(KindsOf(ls)[..k + 1]) == Ok(done)
    ensures KindsOf(ls)[k] != BlankLine ==> KindsOf(ls)[k].EntryLine? && KnowsEntry(t, KindsOf(ls)[k].entry)
    ensures KindsOf(ls)[k] != BlankLine ==> EntriesOf(KindsOf(ls)[..k + 1]) == Ok(done + [KindsOf(ls)[k].entry])
  {
    KindAt(ls, k);
    KindStep(KindsOf(ls), t, es, k, done);
  }

  lemma {:induction false} KindStep(ks: seq<LineKind>, t: Table, es: seq<Entry>, k: nat, done: seq<Entry>)
    requires EntriesOf(ks) == Ok(es) && Knows(t, es)
    requires k < |ks| && EntriesOf(ks[..k]) == Ok(done)
    ensures ks[k] == BlankLine ==> EntriesOf(ks[..k + 1]) == Ok(done)
    ensures ks[k] != BlankLine ==> ks[k].EntryLine? && KnowsEntry(t, ks[k].entry)
    ensures ks[k] != BlankLine ==> EntriesOf(ks[..k + 1]) == Ok(done + [ks[k].entry])
  {
    EntriesSnoc(ks, k);
    EntriesPrefix(ks, k + 1);
    var c := ks[k];
    var upto := EntriesOf(ks[..k + 1]);
    assert upto.Ok? && upto.value == es[..|upto.value|];
    if c.EntryLine? {
      var e := c.entry;
      assert upto.value == done + [e];
      assert es[|done|] == upto.value[|done|] == e;
    }
  }

  /** `parse_graph`: both passes over the lines, with the name table in a map. */
  method ParseGraph(input: string) returns (r: Result<Graph, ParseError>)
    ensures r == GraphOf(input)
  {
    var ls := Lines(input);
    var t := CollectNames(ls);
    if t.Err? {
      return Err(t.error);
    }
    ghost var es := EntriesOf(KindsOf(ls)).value;
    TableMeaning(es);
    TableKnows(es);
    var adj := FillAdjacency(ls, t.value, es);
    r := Ok(Graph(adj[..]));
  }

  // ---------------------------------------------------------------------------
  // Counting paths
  // ---------------------------------------------------------------------------

  /** The walk from `live` terminates: every node in `live` that is neither the target nor
      the forbidden node has all its outputs in `live`, each of smaller `rank`.  Such a
      `live` and `rank` exist exactly when no cycle is reachable from the start without
      passing the target or the forbidden node. */
  ghost predicate Ranked(adj: seq<seq<nat>>, target: nat, forbidden: nat, live: set<nat>, rank: seq<nat>)
  {
    && |rank| == |adj|
    && forall u :: u in live ==> u < |adj| && (u != target && u != forbidden ==> Descends(adj, live, rank, u))
  }

  ghost predicate Descends(adj: seq<seq<nat>>, live: set<nat>, rank: seq<nat>, u: nat)
    requires u < |adj| && |rank| == |adj|
  {
    forall v :: v in adj[u] ==> v in live && v < |adj| && rank[v] < rank[u]
  }

  ghost predicate Terminates(adj: seq<seq<nat>>, start: nat, target: nat, forbidden: nat)
  {
    exists live: set<nat>, rank: seq<nat> :: start in live && Ranked(adj, target, forbidden, live, rank)
  }

  /** The count `count_paths_to` computes: 1 at the target, 0 at the forbidden node, and
      otherwise the sum over the outputs. */
  ghost function Paths(adj: seq<seq<nat>>, target: nat, forbidden: nat, live: set<nat>, rank: seq<nat>, node: nat): nat
    requires Ranked(adj, target, forbidden, live, rank) && node in live
    decreases rank[node], 1
  {
    if node == target then 1
    else if node == forbidden then 0
    else PathsVia(adj, target, forbidden, live, rank, node, |adj[node]|)
  }

  /** The sum of the counts of `node`'s first `k` outputs. */
  ghost function PathsVia(adj: seq<seq<nat>>, target: nat, forbidden: nat, live: set<nat>, rank: seq<nat>,
                          node: nat, k: nat): nat
    requires Ranked(adj, target, forbidden, live, rank) && node in live
    requires node != target && node != forbidden && k <= |adj[node]|
    decreases rank[node], 0, k
  {
    if k == 0 then 0
    else
      var v := adj[node][k - 1];
      assert v in adj[node];
      PathsVia(adj, target, forbidden, live, rank, node, k - 1) + Paths(adj, target, forbidden, live, rank, v)
  }

  /** The count does not depend on the witnesses of termination. */
  lemma {:induction false} PathsIndependent(adj: seq<seq<nat>>, target: nat, forbidden: nat,
                                            live1: set<nat>, rank1: seq<nat>, live2: set<nat>, rank2: seq<nat>, node: nat)
    requires Ranked(adj, target, forbidden, live1, rank1) && node in live1
    requires Ranked(adj, target, forbidden, live2, rank2) && node in live2
    ensures Paths(adj, target, forbidden, live1, rank1, node) == Paths(adj, target, forbidden, live2, rank2, node)
    decreases rank1[node], 1
  {
    if node != target && node != forbidden {
      PathsViaIndependent(adj, target, forbidden, live1, rank1, live2, rank2, node, |adj[node]|);
    }
  }

  lemma {:induction false} PathsViaIndependent(adj: seq<seq<nat>>, target: nat, forbidden: nat,
                                               live1: set<nat>, rank1: seq<nat>, live2: set<nat>, rank2: seq<nat>,
                                               node: nat, k: nat)
    requires Ranked(adj, target, forbidden, live1, rank1) && node in live1
    requires Ranked(adj, target, forbidden, live2, rank2) && node in live2
    requires node != target && node != forbidden && k <= |adj[node]|
    ensures PathsVia(adj, target, forbidden, live1, rank1, node, k) == PathsVia(adj, target, forbidden, live2, rank2, node, k)
    decreases rank1[node], 0, k
  {
    if k > 0 {
      var v := adj[node][k - 1];
      assert v in adj[node];
      PathsViaIndependent(adj, target, forbidden, live1, rank1, live2, rank2, node, k - 1);
      PathsIndependent(adj, target, forbidden, live1, rank1, live2, rank2, v);
    }
  }

  /** The number of paths from `start`, for any witnesses of termination. */
  ghost function PathCount(adj: seq<seq<nat>>, start: nat, target: nat, forbidden: nat): nat
    requires Terminates(adj, start, target, forbidden)
  {
    var live: set<nat>, rank: seq<nat> :| start in live && Ranked(adj, target, forbidden, live, rank);
    Paths(adj, target, forbidden, live, rank, start)
  }

  lemma {:induction false} PathCountIs(adj: seq<seq<nat>>, start: nat, target: nat, forbidden: nat, live: set<nat>, rank: seq<nat>)
    requires start in live && Ranked(adj, target, forbidden, live, rank)
    ensures Terminates(adj, start, target, forbidden)
    ensures PathCount(adj, start, target, forbidden) == Paths(adj, target, forbidden, live, rank, start)
  {
    var live', rank' :| start in live' && Ranked(adj, target, forbidden, live', rank')
                        && PathCount(adj, start, target, forbidden) == Paths(adj, target, forbidden, live', rank', start);
    PathsIndependent(adj, target, forbidden, live, rank, live', rank', start);
  }

  // ---------------------------------------------------------------------------
  // What is counted: routes
  // ---------------------------------------------------------------------------

  /** `cs` picks, at each node from `node` on, which output to follow, and reaches the
      target without passing the forbidden node; the walk stops at the first arrival. */
  ghost predicate IsRoute(adj: seq<seq<nat>>, target: nat, forbidden: nat, node: nat, cs: seq<nat>)
    decreases |cs|
  {
    if cs == [] then node == target
    else
      && node != target && node != forbidden && node < |adj| && cs[0] < |adj[node]|
      && IsRoute(adj, target, forbidden, adj[node][cs[0]], cs[1..])
  }

  /** Every route from `node`, each once. */
  ghost function Routes(adj: seq<seq<nat>>, target: nat, forbidden: nat, live: set<nat>, rank: seq<nat>, node: nat): seq<seq<nat>>
    requires Ranked(adj, target, forbidden, live, rank) && node in live
    decreases rank[node], 1
  {
    if node == target then [[]]
    else if node == forbidden then []
    else RoutesVia(adj, target, forbidden, live, rank, node, |adj[node]|)
  }

  ghost function RoutesVia(adj: seq<seq<nat>>, target: nat, forbidden: nat, live: set<nat>, rank: seq<nat>,
                           node: nat, k: nat): seq<seq<nat>>
    requires Ranked(adj, target, forbidden, live, rank) && node in live
    requires node != target && node != forbidden && k <= |adj[node]|
    decreases rank[node], 0, k
  {
    if k == 0 then []
    else
      var v := adj[node][k - 1];
      assert v in adj[node];
      RoutesVia(adj, target, forbidden, live, rank, node, k - 1) + Prefixed(k - 1, Routes(adj, target, forbidden, live, rank, v))
  }

  function Prefixed(c: nat, rs: seq<seq<nat>>): (r: seq<seq<nat>>)
    ensures |r| == |rs| && forall j :: 0 <= j < |rs| ==> r[j] == [c] + rs[j]
  {
    seq(|rs|, j requires 0 <= j < |rs| => [c] + rs[j])
  }

  ghost predicate Distinct(rs: seq<seq<nat>>)
  {
    forall i, j :: 0 <= i < j < |rs| ==> rs[i] != rs[j]
  }

  /** The count is the number of routes: `Routes` lists exactly the routes, without
      repetition, and has `Paths` elements. */
  lemma {:induction false} RoutesMeaning(adj: seq<seq<nat>>, target: nat, forbidden: nat, live: set<nat>, rank: seq<nat>, node: nat)
    requires Ranked(adj, target, forbidden, live, rank) && node in live
    ensures |Routes(adj, target, forbidden, live, rank, node)| == Paths(adj, target, forbidden, live, rank, node)
    ensures Distinct(Routes(adj, target, forbidden, live, rank, node))
    ensures forall cs :: cs in Routes(adj, target, forbidden, live, rank, node) <==> IsRoute(adj, target, forbidden, node, cs)
    decreases rank[node], 1
  {
    if node == target {
      forall cs ensures cs in Routes(adj, target, forbidden, live, rank, node) <==> IsRoute(adj, target, forbidden, node, cs) {
      }
    } else if node != forbidden {
      RoutesViaMeaning(adj, target, forbidden, live, rank, node, |adj[node]|);
    }
  }

  lemma {:induction false} RoutesViaMeaning(adj: seq<seq<nat>>, target: nat, forbidden: nat, live: set<nat>, rank: seq<nat>,
                                            node: nat, k: nat)
    requires Ranked(adj, target, forbidden, live, rank) && node in live
    requires node != target && node != forbidden && k <= |adj[node]|
    ensures |RoutesVia(adj, target, forbidden, live, rank, node, k)| == PathsVia(adj, target, forbidden, live, rank, node, k)
    ensures Distinct(RoutesVia(adj, target, forbidden, live, rank, node, k))
    ensures forall cs :: cs in RoutesVia(adj, target, forbidden, live, rank, node, k)
                         <==> IsRoute(adj, target, forbidden, node, cs) && cs[0] < k
    decreases rank[node], 0, k
  {
    if k > 0 {
      var v := adj[node][k - 1];
      assert v in adj[node];
      var before := RoutesVia(adj, target, forbidden, live, rank, node, k - 1);
      var sub := Routes(adj, target, forbidden, live, rank, v);
      var added := Prefixed(k - 1, sub);
      RoutesViaMeaning(adj, target, forbidden, live, rank, node, k - 1);
      RoutesMeaning(adj, target, forbidden, live, rank, v);
      var all: seq<seq<nat>> := before + added;
      assert RoutesVia(adj, target, forbidden, live, rank, node, k) == all;
      RoutesAppendMembers(adj, target, forbidden, node, k, before, sub);
      RoutesAppendDistinct(k, before, sub);
    }
  }

  /** The routes through output `k - 1` extend those through the earlier outputs. */
  lemma RoutesAppendMembers(adj: seq<seq<nat>>, target: nat, forbidden: nat, node: nat, k: nat,
                            before: seq<seq<nat>>, sub: seq<seq<nat>>)
    requires node != target && node != forbidden && node < |adj| && 0 < k <= |adj[node]|
    requires forall cs :: cs in before <==> IsRoute(adj, target, forbidden, node, cs) && cs[0] < k - 1
    requires forall cs :: cs in sub <==> IsRoute(adj, target, forbidden, adj[node][k - 1], cs)
    ensures forall cs :: cs in before + Prefixed(k - 1, sub) <==> IsRoute(adj, target, forbidden, node, cs) && cs[0] < k
  {
    var added := Prefixed(k - 1, sub);
    forall cs ensures cs in before + added <==> IsRoute(adj, target, forbidden, node, cs) && cs[0] < k {
      if cs in added {
        var j :| 0 <= j < |added| && added[j] == cs;
        assert cs == [k - 1] + sub[j];
        assert cs[1..] == sub[j];
        assert sub[j] in sub;
        assert IsRoute(adj, target, forbidden, adj[node][cs[0]], cs[1..]);
      }
      if IsRoute(adj, target, forbidden, node, cs) && cs[0] == k - 1 {
        assert cs[1..] in sub;
        var j :| 0 <= j < |sub| && sub[j] == cs[1..];
        assert added[j] == [k - 1] + cs[1..] == cs;
        assert cs in added;
      }
    }
  }

  lemma RoutesAppendDistinct(k: nat, before: seq<seq<nat>>, sub: seq<seq<nat>>)
    requires 0 < k && Distinct(before) && Distinct(sub)
    requires forall cs :: cs in before ==> cs != [] && cs[0] < k - 1
    ensures Distinct(before + Prefixed(k - 1, sub))
  {
    var added := Prefixed(k - 1, sub);
    var all := before + added;
    forall i: int, j: int | 0 <= i < j < |all| ensures all[i] != all[j] {
      if j >= |before| {
        if i >= |before| {
          assert added[i - |before|][1..] == sub[i - |before|];
          assert added[j - |before|][1..] == sub[j - |before|];
        } else {
          assert before[i] in before;
        }
      }
    }
  }

  /** `PathCount` counts the routes from `start`. */
  lemma {:induction false} PathCountMeaning(adj: seq<seq<nat>>, start: nat, target: nat, forbidden: nat)
    requires Terminates(adj, start, target, forbidden)
    ensures exists rs :: |rs| == PathCount(adj, start, target, forbidden) && Distinct(rs)
                         && forall cs :: cs in rs <==> IsRoute(adj, target, forbidden, start, cs)
  {
    var live, rank :| start in live && Ranked(adj, target, forbidden, live, rank);
    PathCountIs(adj, start, target, forbidden, live, rank);
    RoutesMeaning(adj, target, forbidden, live, rank, start);
    var rs := Routes(adj, target, forbidden, live, rank, start);
    assert |rs| == PathCount(adj, start, target, forbidden);
  }

  // ---------------------------------------------------------------------------
  // The memoised walk
  // ---------------------------------------------------------------------------

  /** Every filled memo entry holds its node's count. */
  ghost predicate MemoValid(adj: seq<seq<nat>>, target: nat, forbidden: nat, live: set<nat>, rank: seq<nat>, memo: array<nat>)
    reads memo
  {
    && Ranked(adj, target, forbidden, live, rank)
    && memo.Length == |adj|
    && forall i :: 0 <= i < memo.Length && memo[i] != NOT_COMPUTED ==>
         i in live && i != target && i != forbidden && memo[i] == Paths(adj, target, forbidden, live, rank, i)
  }

  /** `count_paths_to`. */
  method CountPathsTo(g: Graph, node: nat, target: nat, forbidden: nat, memo: array<nat>,
                      ghost live: set<nat>, ghost rank: seq<nat>) returns (total: nat)
    requires node in live && MemoValid(g.adj, target, forbidden, live, rank, memo)
    modifies memo
    ensures total == Paths(g.adj, target, forbidden, live, rank, node)
    ensures MemoValid(g.adj, target, forbidden, live, rank, memo)
    decreases rank[node]
  {
    if node == target {
      return 1;
    }
    if node == forbidden {
      return 0;
    }
    if memo[node] != NOT_COMPUTED {
      return memo[node];
    }
    total := 0;
    var k := 0;
    while k < |g.adj[node]|
      invariant 0 <= k <= |g.adj[node]|
      invariant total == PathsVia(g.adj, target, forbidden, live, rank, node, k)
      invariant MemoValid(g.adj, target, forbidden, live, rank, memo)
    {
      var v := g.adj[node][k];
      assert v in g.adj[node];
      var c := CountPathsTo(g, v, target, forbidden, memo, live, rank);
      total := total + c;
      k := k + 1;
    }
    memo[node] := total;
  }

  /** A fresh memo and a count with it. */
  method Count(g: Graph, start: nat, target: nat, forbidden: nat) returns (c: nat)
    requires Terminates(g.adj, start, target, forbidden)
    ensures c == PathCount(g.adj, start, target, forbidden)
  {
    ghost var live, rank :| start in live && Ranked(g.adj, target, forbidden, live, rank);
    var memo := new nat[|g.adj|](_ => NOT_COMPUTED);
    c := CountPathsTo(g, start, target, forbidden, memo, live, rank);
    PathCountIs(g.adj, start, target, forbidden, live, rank);
  }

  /** The six walks of part 2 all terminate. */
  ghost predicate Part2Terminates(adj: seq<seq<nat>>)
  {
    && Terminates(adj, SVR_ID, DAC_ID, FFT_ID)
    && Terminates(adj, DAC_ID, FFT_ID, NO_NODE)
    && Terminates(adj, FFT_ID, OUT_ID, NO_NODE)
    && Terminates(adj, SVR_ID, FFT_ID, DAC_ID)
    && Terminates(adj, FFT_ID, DAC_ID, NO_NODE)
    && Terminates(adj, DAC_ID, OUT_ID, NO_NODE)
  }

  /** The part 2 answer: paths through dac then fft plus paths through fft then dac. */
  ghost function ThroughBoth(adj: seq<seq<nat>>): nat
    requires Part2Terminates(adj)
  {
    PathCount(adj, SVR_ID, DAC_ID, FFT_ID) * PathCount(adj, DAC_ID, FFT_ID, NO_NODE) * PathCount(adj, FFT_ID, OUT_ID, NO_NODE)
    + PathCount(adj, SVR_ID, FFT_ID, DAC_ID) * PathCount(adj, FFT_ID, DAC_ID, NO_NODE) * PathCount(adj, DAC_ID, OUT_ID, NO_NODE)
  }

  /** `count_paths_through_both`: six walks, each with its own memo. When `out` has no
      outputs, the answer is the number of routes from `svr` to `out` through both `dac`
      and `fft` (see `ThroughBothMeaning` below). */
  method CountPathsThroughBoth(g: Graph) returns (r: nat)
    requires Part2Terminates(g.adj)
    ensures r == ThroughBoth(g.adj)
    ensures Bounded(g.adj) && |g.adj| <= NO_NODE && OUT_ID < |g.adj| && g.adj[OUT_ID] == [] ==> CountsThroughBoth(g.adj, r)
  {
    var svrToDac := Count(g, SVR_ID, DAC_ID, FFT_ID);
    var dacToFft := Count(g, DAC_ID, FFT_ID, NO_NODE);
    var fftToOut := Count(g, FFT_ID, OUT_ID, NO_NODE);
    var dacThenFft := svrToDac * dacToFft * fftToOut;
    var svrToFft := Count(g, SVR_ID, FFT_ID, DAC_ID);
    var fftToDac := Count(g, FFT_ID, DAC_ID, NO_NODE);
    var dacToOut := Count(g, DAC_ID, OUT_ID, NO_NODE);
    var fftThenDac := svrToFft * fftToDac * dacToOut;
    r := dacThenFft + fftThenDac;
    if Bounded(g.adj) && |g.adj| <= NO_NODE && OUT_ID < |g.adj| && g.adj[OUT_ID] == [] {
      ThroughBothMeaning(g.adj);
    }
  }

  // ---------------------------------------------------------------------------
  // What part 2 counts
  // ---------------------------------------------------------------------------

  /** Following `cs` from `node` passes through `x`, the first and the last node
      included. */
  ghost predicate Visits(adj: seq<seq<nat>>, node: nat, cs: seq<nat>, x: nat)
    decreases |cs|
  {
    node == x || (cs != [] && node < |adj| && cs[0] < |adj[node]| && Visits(adj, adj[node][cs[0]], cs[1..], x))
  }

  /** A route from `svr` to `out` that passes through both `dac` and `fft`. */
  ghost predicate ThroughRoute(adj: seq<seq<nat>>, cs: seq<nat>)
  {
    IsRoute(adj, OUT_ID, NO_NODE, SVR_ID, cs) && Visits(adj, SVR_ID, cs, DAC_ID) && Visits(adj, SVR_ID, cs, FFT_ID)
  }

  /** There are exactly `n` routes from `svr` to `out` through both `dac` and `fft`. */
  ghost predicate CountsThroughBoth(adj: seq<seq<nat>>, n: nat)
  {
    exists rs :: |rs| == n && Distinct(rs) && forall cs :: cs in rs <==> ThroughRoute(adj, cs)
  }

  /** No element is a proper prefix of another. */
  ghost predicate PrefixFree(rs: seq<seq<nat>>)
  {
    forall a, b :: a in rs && b in rs && |a| <= |b| && b[..|a|] == a ==> a == b
  }

  /** A list without repetition has as many members as elements. */
  lemma {:induction false} DistinctCard(rs: seq<seq<nat>>)
    requires Distinct(rs)
    ensures |(set cs | cs in rs)| == |rs|
    decreases |rs|
  {
    if rs != [] {
      var tail := rs[1..];
      DistinctCard(tail);
      assert (set cs | cs in rs) == {rs[0]} + (set cs | cs in tail);
      forall k | 0 <= k < |tail| ensures tail[k] != rs[0] {
        assert tail[k] == rs[k + 1];
      }
      assert rs[0] !in (set cs | cs in tail);
    }
  }

  /** The number of routes through both is well defined. */
  lemma CountsUnique(adj: seq<seq<nat>>, n: nat, m: nat)
    ensures CountsThroughBoth(adj, n) && CountsThroughBoth(adj, m) ==> n == m
  {
    if CountsThroughBoth(adj, n) && CountsThroughBoth(adj, m) {
      var rs1 :| |rs1| == n && Distinct(rs1) && forall cs :: cs in rs1 <==> ThroughRoute(adj, cs);
      var rs2 :| |rs2| == m && Distinct(rs2) && forall cs :: cs in rs2 <==> ThroughRoute(adj, cs);
      DistinctCard(rs1);
      DistinctCard(rs2);
      assert (set cs | cs in rs1) == (set cs | cs in rs2);
    }
  }

  /** A route stops at its first arrival, so it is no proper prefix of another route to
      the same target. */
  lemma {:induction false} RoutePrefixFree(adj: seq<seq<nat>>, target: nat, forbidden: nat, node: nat, a: seq<nat>, b: seq<nat>)
    requires IsRoute(adj, target, forbidden, node, a) && IsRoute(adj, target, forbidden, node, b)
    requires |a| <= |b| && b[..|a|] == a
    ensures a == b
    decreases |a|
  {
    if a != [] {
      assert a[0] == b[0];
      assert b[1..][..|a| - 1] == a[1..];
      RoutePrefixFree(adj, target, forbidden, adj[node][a[0]], a[1..], b[1..]);
      assert a == [a[0]] + a[1..] && b == [b[0]] + b[1..];
    }
  }

  /** The routes of one walk, listed once each. */
  lemma RouteList(adj: seq<seq<nat>>, start: nat, target: nat, forbidden: nat) returns (rs: seq<seq<nat>>)
    requires Terminates(adj, start, target, forbidden)
    ensures |rs| == PathCount(adj, start, target, forbidden) && Distinct(rs) && PrefixFree(rs)
    ensures forall cs :: cs in rs <==> IsRoute(adj, target, forbidden, start, cs)
  {
    PathCountMeaning(adj, start, target, forbidden);
    rs :| |rs| == PathCount(adj, start, target, forbidden) && Distinct(rs)
          && forall cs :: cs in rs <==> IsRoute(adj, target, forbidden, start, cs);
    forall a, b | a in rs && b in rs && |a| <= |b| && b[..|a|] == a ensures a == b {
      RoutePrefixFree(adj, target, forbidden, start, a, b);
    }
  }

  /** The end of a route is a node of the graph. */
  lemma {:induction false} RouteEnd(adj: seq<seq<nat>>, target: nat, forbidden: nat, node: nat, cs: seq<nat>)
    requires Bounded(adj) && node < |adj| && IsRoute(adj, target, forbidden, node, cs)
    ensures target < |adj|
    decreases |cs|
  {
    if cs != [] {
      assert adj[node][cs[0]] in adj[node];
      RouteEnd(adj, target, forbidden, adj[node][cs[0]], cs[1..]);
    }
  }

  /** A route to `mid` followed by a route from `mid` to a node without outputs is a
      route to that node. */
  lemma {:induction false} JoinRoutes(adj: seq<seq<nat>>, mid: nat, avoid: nat, node: nat, p: seq<nat>,
                                      target: nat, forbidden: nat, q: seq<nat>)
    requires IsRoute(adj, mid, avoid, node, p) && IsRoute(adj, target, forbidden, mid, q)
    requires target < |adj| && adj[target] == [] && |adj| <= forbidden
    ensures IsRoute(adj, target, forbidden, node, p + q)
    decreases |p|
  {
    if p != [] {
      JoinRoutes(adj, mid, avoid, adj[node][p[0]], p[1..], target, forbidden, q);
      assert (p + q)[0] == p[0] && (p + q)[1..] == p[1..] + q;
    } else {
      assert p + q == q;
    }
  }

  /** What the walk meets after a route to `mid`, the whole walk meets. */
  lemma {:induction false} VisitsAfter(adj: seq<seq<nat>>, mid: nat, avoid: nat, node: nat, p: seq<nat>, w: seq<nat>, x: nat)
    requires IsRoute(adj, mid, avoid, node, p) && Visits(adj, mid, w, x)
    ensures Visits(adj, node, p + w, x)
    decreases |p|
  {
    if p != [] {
      VisitsAfter(adj, mid, avoid, adj[node][p[0]], p[1..], w, x);
      assert (p + w)[0] == p[0] && (p + w)[1..] == p[1..] + w;
    } else {
      assert p + w == w;
    }
  }

  /** A walk that passes the forbidden node is no route. */
  lemma {:induction false} PassingNoRoute(adj: seq<seq<nat>>, target: nat, forbidden: nat, node: nat, cs: seq<nat>)
    requires target != forbidden
    ensures Visits(adj, node, cs, forbidden) ==> !IsRoute(adj, target, forbidden, node, cs)
    decreases |cs|
  {
    if node != forbidden && cs != [] && node < |adj| && cs[0] < |adj[node]| {
      PassingNoRoute(adj, target, forbidden, adj[node][cs[0]], cs[1..]);
    }
  }

  /** No prefix of a route that avoids `other` is a route to `other`. */
  lemma {:induction false} NoEarlierRoute(adj: seq<seq<nat>>, mid: nat, other: nat, node: nat, p: seq<nat>, k: nat, avoid: nat)
    requires IsRoute(adj, mid, other, node, p) && mid != other && k <= |p|
    ensures !IsRoute(adj, other, avoid, node, p[..k])
    decreases k
  {
    if k > 0 {
      assert p[..k][1..] == p[1..][..k - 1];
      NoEarlierRoute(adj, mid, other, adj[node][p[0]], p[1..], k - 1, avoid);
    }
  }

  /** A walk that reaches `first` before `second` has no prefix that reaches `second`
      before `first`. */
  lemma FirstReached(adj: seq<seq<nat>>, first: nat, second: nat, node: nat, p: seq<nat>, x: seq<nat>)
    requires IsRoute(adj, first, second, node, p) && first != second && |p| <= |x| && x[..|p|] == p
    ensures forall k :: 0 <= k <= |x| ==> !IsRoute(adj, second, first, node, x[..k])
  {
    forall k | 0 <= k <= |x| ensures !IsRoute(adj, second, first, node, x[..k]) {
      if k <= |p| {
        assert x[..k] == p[..k];
        NoEarlierRoute(adj, first, second, node, p, k, first);
      } else {
        var w := x[|p|..k];
        assert x[..k] == p + w;
        VisitsAfter(adj, first, second, node, p, w, first);
        PassingNoRoute(adj, second, first, node, x[..k]);
      }
    }
  }

  /** A route that meets `a` or `b` splits where it first meets one of them: a route to
      that node avoiding the other, then a route on to the end. */
  lemma {:induction false} SplitFirst(adj: seq<seq<nat>>, target: nat, forbidden: nat, node: nat, cs: seq<nat>, a: nat, b: nat)
    returns (i: nat, hit: nat)
    requires IsRoute(adj, target, forbidden, node, cs) && a != b
    requires Visits(adj, node, cs, a) || Visits(adj, node, cs, b)
    ensures i <= |cs| && (hit == a || hit == b)
    ensures IsRoute(adj, hit, if hit == a then b else a, node, cs[..i])
    ensures IsRoute(adj, target, forbidden, hit, cs[i..])
    ensures forall x :: Visits(adj, node, cs, x) <==> Visits(adj, node, cs[..i], x) || Visits(adj, hit, cs[i..], x)
    decreases |cs|
  {
    if node == a || node == b {
      i, hit := 0, node;
      assert cs[..0] == [] && cs[0..] == cs;
    } else {
      var next := adj[node][cs[0]];
      var i', h := SplitFirst(adj, target, forbidden, next, cs[1..], a, b);
      i, hit := i' + 1, h;
      assert cs[..i][1..] == cs[1..][..i'];
      assert cs[i..] == cs[1..][i'..];
      assert cs[..i][0] == cs[0];
    }
  }

  /** Every `a + b` with `a` from `xs` and `b` from `ys`. */
  function Joins(xs: seq<seq<nat>>, ys: seq<seq<nat>>): (r: seq<seq<nat>>)
    ensures |r| == |xs| * |ys|
    decreases |xs|
  {
    if xs == [] then []
    else
      var rest := Joins(xs[1..], ys);
      assert |ys| + (|xs| - 1) * |ys| == |xs| * |ys|;
      seq(|ys|, j requires 0 <= j < |ys| => xs[0] + ys[j]) + rest
  }

  lemma {:induction false} JoinsHas(xs: seq<seq<nat>>, ys: seq<seq<nat>>, a: seq<nat>, b: seq<nat>)
    requires a in xs && b in ys
    ensures a + b in Joins(xs, ys)
    decreases |xs|
  {
    var front := seq(|ys|, j requires 0 <= j < |ys| => xs[0] + ys[j]);
    assert Joins(xs, ys) == front + Joins(xs[1..], ys);
    if a == xs[0] {
      var j :| 0 <= j < |ys| && ys[j] == b;
      assert front[j] == a + b;
    } else {
      JoinsHas(xs[1..], ys, a, b);
    }
  }

  lemma {:induction false} JoinsAt(xs: seq<seq<nat>>, ys: seq<seq<nat>>, k: nat) returns (i: nat, b: seq<nat>)
    requires k < |Joins(xs, ys)|
    ensures i < |xs| && b in ys && Joins(xs, ys)[k] == xs[i] + b
    decreases |xs|
  {
    var front := seq(|ys|, j requires 0 <= j < |ys| => xs[0] + ys[j]);
    assert Joins(xs, ys) == front + Joins(xs[1..], ys);
    if k < |ys| {
      i, b := 0, ys[k];
    } else {
      var i', b' := JoinsAt(xs[1..], ys, k - |ys|);
      i, b := i' + 1, b';
    }
  }

  lemma JoinsFrom(xs: seq<seq<nat>>, ys: seq<seq<nat>>, z: seq<nat>) returns (a: seq<nat>, b: seq<nat>)
    requires z in Joins(xs, ys)
    ensures a in xs && b in ys && z == a + b
  {
    var k :| 0 <= k < |Joins(xs, ys)| && Joins(xs, ys)[k] == z;
    var i;
    i, b := JoinsAt(xs, ys, k);
    a := xs[i];
  }

  /** Two ways of writing one sequence as a prefix and a rest: one prefix is a prefix of
      the other. */
  lemma SamePrefixes(u: seq<nat>, s: seq<nat>, v: seq<nat>, t: seq<nat>)
    ensures u + s == v + t ==> (|u| <= |v| && v[..|u|] == u) || (|v| <= |u| && u[..|v|] == v)
  {
    if u + s == v + t {
      if |u| <= |v| {
        assert v[..|u|] == (v + t)[..|u|] == (u + s)[..|u|] == u;
      } else {
        assert u[..|v|] == (u + s)[..|v|] == (v + t)[..|v|] == v;
      }
    }
  }

  lemma {:induction false} JoinsDistinct(xs: seq<seq<nat>>, ys: seq<seq<nat>>)
    requires Distinct(xs) && Distinct(ys) && PrefixFree(xs)
    ensures Distinct(Joins(xs, ys))
    decreases |xs|
  {
    if xs != [] {
      var front := seq(|ys|, j requires 0 <= j < |ys| => xs[0] + ys[j]);
      var tail := xs[1..];
      var rest := Joins(tail, ys);
      forall a | a in tail ensures a in xs {
        var k :| 0 <= k < |tail| && tail[k] == a;
        assert xs[k + 1] == a;
      }
      forall i, j | 0 <= i < j < |tail| ensures tail[i] != tail[j] {
        assert tail[i] == xs[i + 1] && tail[j] == xs[j + 1];
      }
      JoinsDistinct(tail, ys);
      var all := Joins(xs, ys);
      assert all == front + rest;
      forall i, j | 0 <= i < j < |all| ensures all[i] != all[j] {
        if j < |front| {
          assert all[i][|xs[0]|..] == ys[i] && all[j][|xs[0]|..] == ys[j];
        } else if i < |front| {
          var k, b := JoinsAt(tail, ys, j - |front|);
          assert all[j] == tail[k] + b;
          assert tail[k] == xs[k + 1] && xs[k + 1] in xs && xs[0] in xs;
          SamePrefixes(xs[0], ys[i], xs[k + 1], b);
        }
      }
    }
  }

  lemma JoinsPrefixFree(xs: seq<seq<nat>>, ys: seq<seq<nat>>)
    requires PrefixFree(xs) && PrefixFree(ys)
    ensures PrefixFree(Joins(xs, ys))
  {
    var all := Joins(xs, ys);
    forall z1, z2 | z1 in all && z2 in all && |z1| <= |z2| && z2[..|z1|] == z1 ensures z1 == z2 {
      var a1, b1 := JoinsFrom(xs, ys, z1);
      var a2, b2 := JoinsFrom(xs, ys, z2);
      JoinedPrefix(xs, ys, a1, b1, a2, b2);
    }
  }

  /** If `a1 + b1` is a prefix of `a2 + b2`, the parts from prefix-free lists agree. */
  lemma JoinedPrefix(xs: seq<seq<nat>>, ys: seq<seq<nat>>, a1: seq<nat>, b1: seq<nat>, a2: seq<nat>, b2: seq<nat>)
    requires PrefixFree(xs) && PrefixFree(ys) && a1 in xs && a2 in xs && b1 in ys && b2 in ys
    requires |a1 + b1| <= |a2 + b2| && (a2 + b2)[..|a1 + b1|] == a1 + b1
    ensures a1 + b1 == a2 + b2
  {
    var z1, z2 := a1 + b1, a2 + b2;
    assert z2[..|a1|] == z1[..|a1|] == a1;
    assert z2[..|a2|] == a2;
    assert |a1| <= |a2| ==> a2[..|a1|] == z2[..|a1|];
    assert |a2| <= |a1| ==> a1[..|a2|] == z2[..|a2|];
    assert a1 == a2;
    assert b2[..|b1|] == z2[|a1|..|z1|] == b1;
    assert b1 == b2;
  }

  /** The three lists of one order of visiting: routes from `svr` to `first` avoiding
      `second`, from `first` to `second`, and from `second` to `out`. */
  ghost predicate TermLists(adj: seq<seq<nat>>, first: nat, second: nat, ps: seq<seq<nat>>, qs: seq<seq<nat>>, rs: seq<seq<nat>>)
  {
    && (forall cs :: cs in ps <==> IsRoute(adj, first, second, SVR_ID, cs))
    && (forall cs :: cs in qs <==> IsRoute(adj, second, NO_NODE, first, cs))
    && (forall cs :: cs in rs <==> IsRoute(adj, OUT_ID, NO_NODE, second, cs))
  }

  /** Each joined walk of one order is a route through both that meets `first`, and not
      `second`, first. */
  lemma TermSound(adj: seq<seq<nat>>, first: nat, second: nat, ps: seq<seq<nat>>, qs: seq<seq<nat>>, rs: seq<seq<nat>>, x: seq<nat>)
    requires OUT_ID < |adj| && adj[OUT_ID] == [] && |adj| <= NO_NODE
    requires first != second && TermLists(adj, first, second, ps, qs, rs)
    ensures x in Joins(Joins(ps, qs), rs) ==>
              && IsRoute(adj, OUT_ID, NO_NODE, SVR_ID, x)
              && Visits(adj, SVR_ID, x, first) && Visits(adj, SVR_ID, x, second)
              && (exists k :: 0 <= k <= |x| && IsRoute(adj, first, second, SVR_ID, x[..k]))
              && (forall k :: 0 <= k <= |x| ==> !IsRoute(adj, second, first, SVR_ID, x[..k]))
  {
    if x in Joins(Joins(ps, qs), rs) {
      var pq, r := JoinsFrom(Joins(ps, qs), rs, x);
      var p, q := JoinsFrom(ps, qs, pq);
      JoinRoutes(adj, second, NO_NODE, first, q, OUT_ID, NO_NODE, r);
      JoinRoutes(adj, first, second, SVR_ID, p, OUT_ID, NO_NODE, q + r);
      assert x == p + (q + r);
      assert Visits(adj, first, q + r, first);
      VisitsAfter(adj, first, second, SVR_ID, p, q + r, first);
      assert Visits(adj, second, r, second);
      VisitsAfter(adj, second, NO_NODE, first, q, r, second);
      VisitsAfter(adj, first, second, SVR_ID, p, q + r, second);
      assert x[..|p|] == p;
      FirstReached(adj, first, second, SVR_ID, p, x);
    }
  }

  /** A route through both whose first special node is `first` is one of the joined
      walks of that order. */
  lemma TermComplete(adj: seq<seq<nat>>, first: nat, second: nat, ps: seq<seq<nat>>, qs: seq<seq<nat>>, rs: seq<seq<nat>>,
                     x: seq<nat>, i: nat)
    requires Bounded(adj) && SVR_ID < |adj| && |adj| <= NO_NODE && second != NO_NODE
    requires first != second && TermLists(adj, first, second, ps, qs, rs)
    requires i <= |x| && IsRoute(adj, first, second, SVR_ID, x[..i]) && IsRoute(adj, OUT_ID, NO_NODE, first, x[i..])
    requires Visits(adj, first, x[i..], second)
    ensures x in Joins(Joins(ps, qs), rs)
  {
    var rest := x[i..];
    RouteEnd(adj, first, second, SVR_ID, x[..i]);
    var j, hit := SplitFirst(adj, OUT_ID, NO_NODE, first, rest, second, NO_NODE);
    RouteEnd(adj, hit, if hit == second then NO_NODE else second, first, rest[..j]);
    var p, q, r := x[..i], rest[..j], rest[j..];
    JoinsHas(ps, qs, p, q);
    JoinsHas(Joins(ps, qs), rs, p + q, r);
    assert x == (p + q) + r;
  }

  lemma DistinctAppend(xs: seq<seq<nat>>, ys: seq<seq<nat>>)
    requires Distinct(xs) && Distinct(ys) && forall cs :: cs in xs ==> cs !in ys
    ensures Distinct(xs + ys)
  {
    var all := xs + ys;
    forall i, j | 0 <= i < j < |all| ensures all[i] != all[j] {
      if i < |xs| <= j {
        assert all[i] in xs && all[j] == ys[j - |xs|] && ys[j - |xs|] in ys;
      }
    }
  }

  /** When `out` has no outputs, the part 2 answer is the number of routes from `svr` to
      `out` that pass through both `dac` and `fft`: each such route splits uniquely at
      the first of the two, then at the other. */
  lemma ThroughBothMeaning(adj: seq<seq<nat>>)
    requires Bounded(adj) && Part2Terminates(adj) && |adj| <= NO_NODE
    requires OUT_ID < |adj| && adj[OUT_ID] == []
    ensures CountsThroughBoth(adj, ThroughBoth(adj))
  {
    var p1, q1, r1 := TermList(adj, DAC_ID, FFT_ID);
    var p2, q2, r2 := TermList(adj, FFT_ID, DAC_ID);
    assert SVR_ID < |adj| by {
      var live, rank :| SVR_ID in live && Ranked(adj, DAC_ID, FFT_ID, live, rank);
    }
    var t1 := Joins(Joins(p1, q1), r1);
    var t2 := Joins(Joins(p2, q2), r2);
    forall x ensures (x in t1 + t2 <==> ThroughRoute(adj, x)) && (x in t1 ==> x !in t2) {
      TermsMember(adj, p1, q1, r1, p2, q2, r2, x);
    }
    DistinctAppend(t1, t2);
    assert |t1 + t2| == ThroughBoth(adj);
  }

  /** The three route lists of one order, and their joined walks, each once. */
  lemma TermList(adj: seq<seq<nat>>, first: nat, second: nat) returns (ps: seq<seq<nat>>, qs: seq<seq<nat>>, rs: seq<seq<nat>>)
    requires Terminates(adj, SVR_ID, first, second) && Terminates(adj, first, second, NO_NODE) && Terminates(adj, second, OUT_ID, NO_NODE)
    ensures TermLists(adj, first, second, ps, qs, rs)
    ensures |Joins(Joins(ps, qs), rs)| == PathCount(adj, SVR_ID, first, second) * PathCount(adj, first, second, NO_NODE) * PathCount(adj, second, OUT_ID, NO_NODE)
    ensures Distinct(Joins(Joins(ps, qs), rs))
  {
    ps := RouteList(adj, SVR_ID, first, second);
    qs := RouteList(adj, first, second, NO_NODE);
    rs := RouteList(adj, second, OUT_ID, NO_NODE);
    JoinsDistinct(ps, qs);
    JoinsPrefixFree(ps, qs);
    JoinsDistinct(Joins(ps, qs), rs);
  }

  /** The joined walks of the two orders are exactly the routes through both, and no
      route is in both orders. */
  lemma TermsMember(adj: seq<seq<nat>>, p1: seq<seq<nat>>, q1: seq<seq<nat>>, r1: seq<seq<nat>>,
                    p2: seq<seq<nat>>, q2: seq<seq<nat>>, r2: seq<seq<nat>>, x: seq<nat>)
    requires Bounded(adj) && SVR_ID < |adj| && |adj| <= NO_NODE && OUT_ID < |adj| && adj[OUT_ID] == []
    requires TermLists(adj, DAC_ID, FFT_ID, p1, q1, r1) && TermLists(adj, FFT_ID, DAC_ID, p2, q2, r2)
    ensures x in Joins(Joins(p1, q1), r1) + Joins(Joins(p2, q2), r2) <==> ThroughRoute(adj, x)
    ensures x in Joins(Joins(p1, q1), r1) ==> x !in Joins(Joins(p2, q2), r2)
  {
    TermSound(adj, DAC_ID, FFT_ID, p1, q1, r1, x);
    TermSound(adj, FFT_ID, DAC_ID, p2, q2, r2, x);
    if ThroughRoute(adj, x) {
      var i, hit := SplitFirst(adj, OUT_ID, NO_NODE, SVR_ID, x, DAC_ID, FFT_ID);
      if hit == DAC_ID {
        PassingNoRoute(adj, DAC_ID, FFT_ID, SVR_ID, x[..i]);
        TermComplete(adj, DAC_ID, FFT_ID, p1, q1, r1, x, i);
      } else {
        PassingNoRoute(adj, FFT_ID, DAC_ID, SVR_ID, x[..i]);
        TermComplete(adj, FFT_ID, DAC_ID, p2, q2, r2, x, i);
      }
    }
  }

  /** The graph with the outputs of `out` dropped. */
  function CutOut(adj: seq<seq<nat>>): seq<seq<nat>>
    requires OUT_ID < |adj|
  {
    adj[OUT_ID := []]
  }

  /** Dropping edges keeps every walk terminating. */
  lemma CutTerminates(adj: seq<seq<nat>>, start: nat, target: nat, forbidden: nat)
    requires OUT_ID < |adj| && Terminates(adj, start, target, forbidden)
    ensures Terminates(CutOut(adj), start, target, forbidden)
  {
    var live, rank :| start in live && Ranked(adj, target, forbidden, live, rank);
    var cut := CutOut(adj);
    forall u | u in live ensures u < |cut| && (u != target && u != forbidden ==> Descends(cut, live, rank, u)) {
    }
    assert Ranked(cut, target, forbidden, live, rank);
  }

  lemma CutPart2(adj: seq<seq<nat>>)
    requires OUT_ID < |adj| && Part2Terminates(adj)
    ensures Part2Terminates(CutOut(adj))
    ensures Bounded(adj) ==> Bounded(CutOut(adj))
  {
    CutTerminates(adj, SVR_ID, DAC_ID, FFT_ID);
    CutTerminates(adj, DAC_ID, FFT_ID, NO_NODE);
    CutTerminates(adj, FFT_ID, OUT_ID, NO_NODE);
    CutTerminates(adj, SVR_ID, FFT_ID, DAC_ID);
    CutTerminates(adj, FFT_ID, DAC_ID, NO_NODE);
    CutTerminates(adj, DAC_ID, OUT_ID, NO_NODE);
  }

  /** A route to `out` never leaves `out`, so it is the same in the cut graph and meets
      the same nodes there. */
  lemma {:induction false} CutRoute(adj: seq<seq<nat>>, forbidden: nat, node: nat, cs: seq<nat>, x: nat)
    requires OUT_ID < |adj|
    ensures IsRoute(adj, OUT_ID, forbidden, node, cs) <==> IsRoute(CutOut(adj), OUT_ID, forbidden, node, cs)
    ensures IsRoute(adj, OUT_ID, forbidden, node, cs) ==> (Visits(adj, node, cs, x) <==> Visits(CutOut(adj), node, cs, x))
    decreases |cs|
  {
    if cs != [] && node != OUT_ID && node < |adj| {
      assert CutOut(adj)[node] == adj[node];
      if cs[0] < |adj[node]| {
        CutRoute(adj, forbidden, adj[node][cs[0]], cs[1..], x);
      }
    }
  }

  /** The corrected part 2 answer: the six walks on the graph without the outputs of
      `out`. */
  ghost function ThroughBothCut(adj: seq<seq<nat>>): nat
    requires OUT_ID < |adj| && Part2Terminates(adj)
  {
    CutPart2(adj);
    ThroughBoth(CutOut(adj))
  }

  /** The corrected answer counts the routes from `svr` to `out` through both `dac` and
      `fft`, whatever the outputs of `out`, and is the source's answer when `out` has
      none. */
  lemma ThroughBothCutMeaning(adj: seq<seq<nat>>)
    requires Bounded(adj) && Part2Terminates(adj) && |adj| <= NO_NODE && OUT_ID < |adj|
    ensures CountsThroughBoth(adj, ThroughBothCut(adj))
    ensures adj[OUT_ID] == [] ==> ThroughBothCut(adj) == ThroughBoth(adj)
  {
    var cut := CutOut(adj);
    CutPart2(adj);
    ThroughBothMeaning(cut);
    var rs :| |rs| == ThroughBoth(cut) && Distinct(rs) && forall cs :: cs in rs <==> ThroughRoute(cut, cs);
    forall cs ensures ThroughRoute(cut, cs) <==> ThroughRoute(adj, cs) {
      CutRoute(adj, NO_NODE, SVR_ID, cs, DAC_ID);
      CutRoute(adj, NO_NODE, SVR_ID, cs, FFT_ID);
    }
    assert |rs| == ThroughBothCut(adj);
    if adj[OUT_ID] == [] {
      assert cut == adj;
    }
  }

  /** The graph of "svr: out", "out: dac", "dac: fft" and "fft: out". */
  const LOOP_BACK: seq<seq<nat>> := [[DAC_ID], [], [OUT_ID], [FFT_ID], [OUT_ID]]

  /** On a graph where `out` has an output, the source's answer counts walks that run on
      past `out`: here it is 1, while the only route from `svr` to `out` is the direct
      one, which meets neither `dac` nor `fft`, and the corrected answer is 0. */
  lemma ThroughBothOvercounts()
    ensures Bounded(LOOP_BACK) && Part2Terminates(LOOP_BACK) && |LOOP_BACK| <= NO_NODE
    ensures ThroughBoth(LOOP_BACK) == 1
    ensures forall cs :: IsRoute(LOOP_BACK, OUT_ID, NO_NODE, SVR_ID, cs) ==> cs == [0] && !Visits(LOOP_BACK, SVR_ID, cs, DAC_ID)
    ensures !CountsThroughBoth(LOOP_BACK, ThroughBoth(LOOP_BACK))
    ensures ThroughBothCut(LOOP_BACK) == 0
  {
    var g := LOOP_BACK;
    LoopBackCounts();
    LoopBackRoutes();
    ThroughBothCutMeaning(g);
    assert CountsThroughBoth(g, 0) by {
      var none: seq<seq<nat>> := [];
      assert forall cs :: cs in none <==> ThroughRoute(g, cs);
    }
    CountsUnique(g, 0, 1);
    CountsUnique(g, 0, ThroughBothCut(g));
  }

  /** The six segment counts on `LOOP_BACK`: only svr, out, dac and dac, fft and
      fft, out are walks, so the first order gives 1 and the second 0. */
  lemma LoopBackCounts()
    ensures Bounded(LOOP_BACK) && Part2Terminates(LOOP_BACK) && |LOOP_BACK| <= NO_NODE
    ensures ThroughBoth(LOOP_BACK) == 1
  {
    var g := LOOP_BACK;
    var all: set<nat> := {0, 1, 2, 3, 4};
    var rank1 := [1, 0, 2, 0, 0];
    assert Ranked(g, DAC_ID, FFT_ID, all, rank1);
    assert Ranked(g, FFT_ID, DAC_ID, all, rank1);
    var rank2 := [0, 0, 0, 1, 0];
    assert Ranked(g, FFT_ID, NO_NODE, {3, 4}, rank2);
    var rank3 := [0, 0, 0, 0, 1];
    assert Ranked(g, OUT_ID, NO_NODE, {0, 4}, rank3);
    var rank5 := [1, 0, 0, 0, 2];
    assert Ranked(g, DAC_ID, NO_NODE, {0, 3, 4}, rank5);
    var rank6 := [0, 0, 0, 2, 1];
    assert Ranked(g, OUT_ID, NO_NODE, {0, 3, 4}, rank6);
    PathCountIs(g, SVR_ID, DAC_ID, FFT_ID, all, rank1);
    PathCountIs(g, DAC_ID, FFT_ID, NO_NODE, {3, 4}, rank2);
    PathCountIs(g, FFT_ID, OUT_ID, NO_NODE, {0, 4}, rank3);
    PathCountIs(g, SVR_ID, FFT_ID, DAC_ID, all, rank1);
    PathCountIs(g, FFT_ID, DAC_ID, NO_NODE, {0, 3, 4}, rank5);
    PathCountIs(g, DAC_ID, OUT_ID, NO_NODE, {0, 3, 4}, rank6);
    assert Paths(g, DAC_ID, FFT_ID, all, rank1, 0) == 1 by {
      assert PathsVia(g, DAC_ID, FFT_ID, all, rank1, 0, 1) == Paths(g, DAC_ID, FFT_ID, all, rank1, 3);
    }
    assert Paths(g, DAC_ID, FFT_ID, all, rank1, SVR_ID) == 1 by {
      assert PathsVia(g, DAC_ID, FFT_ID, all, rank1, SVR_ID, 1) == Paths(g, DAC_ID, FFT_ID, all, rank1, 0);
    }
    assert Paths(g, FFT_ID, NO_NODE, {3, 4}, rank2, DAC_ID) == 1 by {
      assert PathsVia(g, FFT_ID, NO_NODE, {3, 4}, rank2, DAC_ID, 1) == Paths(g, FFT_ID, NO_NODE, {3, 4}, rank2, 4);
    }
    assert Paths(g, OUT_ID, NO_NODE, {0, 4}, rank3, FFT_ID) == 1 by {
      assert PathsVia(g, OUT_ID, NO_NODE, {0, 4}, rank3, FFT_ID, 1) == Paths(g, OUT_ID, NO_NODE, {0, 4}, rank3, 0);
    }
    assert Paths(g, FFT_ID, DAC_ID, all, rank1, 0) == 0 by {
      assert PathsVia(g, FFT_ID, DAC_ID, all, rank1, 0, 1) == Paths(g, FFT_ID, DAC_ID, all, rank1, 3);
    }
    assert Paths(g, FFT_ID, DAC_ID, all, rank1, SVR_ID) == 0 by {
      assert PathsVia(g, FFT_ID, DAC_ID, all, rank1, SVR_ID, 1) == Paths(g, FFT_ID, DAC_ID, all, rank1, 0);
    }
  }

  /** The only route from `svr` to `out` on `LOOP_BACK` is the direct one. */
  lemma LoopBackRoutes()
    ensures forall cs :: IsRoute(LOOP_BACK, OUT_ID, NO_NODE, SVR_ID, cs) ==> cs == [0] && !Visits(LOOP_BACK, SVR_ID, cs, DAC_ID)
  {
    var g := LOOP_BACK;
    forall cs | IsRoute(g, OUT_ID, NO_NODE, SVR_ID, cs) ensures cs == [0] && !Visits(g, SVR_ID, cs, DAC_ID) {
      assert cs[0] == 0;
      assert IsRoute(g, OUT_ID, NO_NODE, 0, cs[1..]);
      assert cs == [cs[0]] + cs[1..];
      assert !Visits(g, 0, cs[1..], DAC_ID);
    }
  }

  // ---------------------------------------------------------------------------
  // Entry points
  // ---------------------------------------------------------------------------

  method Part1(input: string) returns (r: Result<nat, ParseError>)
    requires GraphOf(input).Ok? ==> Terminates(GraphOf(input).value.adj, YOU_ID, OUT_ID, NO_NODE)
    ensures GraphOf(input).Err? ==> r == Err(GraphOf(input).error)
    ensures GraphOf(input).Ok? ==> r == Ok(PathCount(GraphOf(input).value.adj, YOU_ID, OUT_ID, NO_NODE))
  {
    var g := ParseGraph(input);
    if g.Err? {
      return Err(g.error);
    }
    var c := Count(g.value, YOU_ID, OUT_ID, NO_NODE);
    r := Ok(c);
  }

  /** Part 2 on the corrected count: the six walks run on the graph without the outputs
      of `out`, so that only routes stopping at `out` are counted. */
  method Part2(input: string) returns (r: Result<nat, ParseError>)
    requires GraphOf(input).Ok? ==> Part2Terminates(GraphOf(input).value.adj)
    ensures GraphOf(input).Err? ==> r == Err(GraphOf(input).error)
    ensures GraphOf(input).Ok? ==> var adj := GraphOf(input).value.adj;
      OUT_ID < |adj| && r == Ok(ThroughBothCut(adj))
      && (|adj| <= NO_NODE ==> CountsThroughBoth(adj, r.value))
      && (adj[OUT_ID] == [] ==> r == Ok(ThroughBoth(adj)))
  {
    var g := ParseGraph(input);
    if g.Err? {
      return Err(g.error);
    }
    var c := CountCorrected(input, g.value);
    r := Ok(c);
  }

  /** The corrected part 2 count of a parsed graph. */
  method CountCorrected(ghost input: string, g: Graph) returns (c: nat)
    requires GraphOf(input) == Ok(g) && Part2Terminates(g.adj)
    ensures OUT_ID < |g.adj| && c == ThroughBothCut(g.adj)
    ensures |g.adj| <= NO_NODE ==> CountsThroughBoth(g.adj, c)
    ensures g.adj[OUT_ID] == [] ==> c == ThroughBoth(g.adj)
  {
    GraphShape(input);
    CutPart2(g.adj);
    c := CountPathsThroughBoth(Graph(g.adj[OUT_ID := []]));
    if |g.adj| <= NO_NODE {
      ThroughBothCutMeaning(g.adj);
    } else if g.adj[OUT_ID] == [] {
      assert CutOut(g.adj) == g.adj;
    }
  }

  method Both(input: string) returns (r: Result<(nat, nat), ParseError>)
    requires GraphOf(input).Ok? ==> Terminates(GraphOf(input).value.adj, YOU_ID, OUT_ID, NO_NODE)
    requires GraphOf(input).Ok? ==> Part2Terminates(GraphOf(input).value.adj)
    ensures GraphOf(input).Err? ==> r == Err(GraphOf(input).error)
    ensures GraphOf(input).Ok? ==> var adj := GraphOf(input).value.adj;
      OUT_ID < |adj| && r == Ok((PathCount(adj, YOU_ID, OUT_ID, NO_NODE), ThroughBothCut(adj)))
      && (|adj| <= NO_NODE ==> CountsThroughBoth(adj, r.value.1))
      && (adj[OUT_ID] == [] ==> r.value.1 == ThroughBoth(adj))
  {
    var g := ParseGraph(input);
    if g.Err? {
      return Err(g.error);
    }
    var p1 := Count(g.value, YOU_ID, OUT_ID, NO_NODE);
    var p2 := CountCorrected(input, g.value);
    r := Ok((p1, p2));
  }
}
