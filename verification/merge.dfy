/**
 * The k-way merge of spilled blocks (`BaseIndex.merge_blocks`). A block file is a
 * sequence of lines, written without their final newline. Reading past the end
 * gives "", and so does reading an empty line. Either way the block is retired.
 * The merge keeps one current line per open block and repeatedly takes the
 * smallest current line, comparing whole lines. It writes the line's first field
 * as the term and the rest of its fields, sorted and joined by spaces, as a chunk
 * of postings. A term equal to the one just written gets the chunk appended to
 * the same output line.
 */
module BlockMerge {
  import opened Strings

  // ---------------------------------------------------------------------------
  // Reading a block
  // ---------------------------------------------------------------------------

  /** `readline()[:-1]` at line index `pos`: the line, or "" past the end of the block. */
  function ReadLine(block: seq<string>, pos: nat): string {
    if pos < |block| then block[pos] else ""
  }

  /** The lines the merge can ever see of a block: those before the first empty line (or all of them). */
  function Live(block: seq<string>): (live: seq<string>)
    ensures |live| <= |block| && live == block[..|live|]
    ensures forall i :: 0 <= i < |live| ==> live[i] != ""
    ensures |live| < |block| ==> block[|live|] == ""
    decreases |block|
  {
    if block == [] || block[0] == "" then [] else [block[0]] + Live(block[1..])
  }

  /** Reading at `pos` gives "" exactly when `pos` is past the live lines. */
  lemma ReadLineLive(block: seq<string>, pos: nat)
    requires pos <= |Live(block)|
    ensures ReadLine(block, pos) == "" <==> pos == |Live(block)|
    ensures pos < |Live(block)| ==> ReadLine(block, pos) == Live(block)[pos]
  {
  }

  /** Lines in non-decreasing order. */
  predicate SortedLines(lines: seq<string>) {
    forall i, j :: 0 <= i < j < |lines| ==> LessEq(lines[i], lines[j])
  }

  // ---------------------------------------------------------------------------
  // sorted(...) on a list of strings
  // ---------------------------------------------------------------------------

  function Insert(x: string, s: seq<string>): (r: seq<string>)
    ensures multiset(r) == multiset(s) + multiset{x}
    ensures SortedLines(s) ==> SortedLines(r)
    decreases |s|
  {
    if s == [] then [x]
    else if LessEq(x, s[0]) then
      InsertFrontSorted(x, s);
      [x] + s
    else
      var rest := Insert(x, s[1..]);
      assert s == [s[0]] + s[1..];
      NotLessIsLessEq(s[0], x);
      InsertBehindSorted(x, s, rest);
      [s[0]] + rest
  }

  lemma InsertFrontSorted(x: string, s: seq<string>)
    requires s != [] && LessEq(x, s[0])
    ensures SortedLines(s) ==> SortedLines([x] + s)
  {
    if !SortedLines(s) { return; }
    var r := [x] + s;
    forall i, j | 0 <= i < j < |r| ensures LessEq(r[i], r[j]) {
      if i == 0 && j > 1 {
        LessEqTransitive(x, s[0], s[j - 1]);
      }
    }
  }

  lemma InsertBehindSorted(x: string, s: seq<string>, rest: seq<string>)
    requires s != [] && LessEq(s[0], x)
    requires SortedLines(s[1..]) ==> SortedLines(rest)
    requires multiset(rest) == multiset(s[1..]) + multiset{x}
    ensures SortedLines(s) ==> SortedLines([s[0]] + rest)
  {
    if !SortedLines(s) { return; }
    assert SortedLines(s[1..]);
    var r := [s[0]] + rest;
    forall j | 0 <= j < |rest| ensures LessEq(s[0], rest[j]) {
      assert rest[j] in multiset(rest);
      if rest[j] != x {
        assert rest[j] in multiset(s[1..]);
        var k :| 0 <= k < |s[1..]| && s[1..][k] == rest[j];
        assert s[k + 1] == rest[j];
      }
    }
  }

  /** `sorted(pieces)`: insertion sort, which for strings gives the one sorted permutation. */
  function SortStrings(s: seq<string>): seq<string>
    decreases |s|
  {
    if s == [] then [] else Insert(s[0], SortStrings(s[1..]))
  }

  /** `sorted` returns its argument's strings, each as often as given, in non-decreasing order. */
  lemma {:induction false} SortStringsSorts(s: seq<string>)
    ensures multiset(SortStrings(s)) == multiset(s)
    ensures SortedLines(SortStrings(s))
    decreases |s|
  {
    if s != [] {
      SortStringsSorts(s[1..]);
      assert SortStrings(s) == Insert(s[0], SortStrings(s[1..]));
      assert multiset(s) == multiset(s[1..]) + multiset{s[0]} by {
        assert s == [s[0]] + s[1..];
      }
    }
  }

  // ---------------------------------------------------------------------------
  // The output file
  // ---------------------------------------------------------------------------

  /** One line of `final_index.txt`: a term and the posting chunks written for it, in order. */
  datatype OutputLine = OutputLine(term: string, chunks: seq<string>)

  /** The text of one output line: `term chunk1 chunk2 ...`. */
  function RenderOutputLine(o: OutputLine): string {
    o.term + " " + Join(o.chunks, " ")
  }

  /** The lines of `final_index.txt`: the merge writes "\n" before every term, so the file opens with an empty line. */
  function OutputFileLines(out: seq<OutputLine>): (lines: seq<string>)
    ensures |lines| == |out| + 1 && lines[0] == ""
  {
    [""] + seq(|out|, i requires 0 <= i < |out| => RenderOutputLine(out[i]))
  }

  /** The chunk one merge step writes: the fields after the term, sorted, joined by spaces. */
  function Chunk(line: string): string
    requires Fields(line) != []
  {
    Join(SortStrings(Fields(line)[1..]), " ")
  }

  /** What one merge step writes for a line: its term and its chunk. */
  datatype Taken = Taken(term: string, chunk: string)

  predicate AllHaveFields(lines: seq<string>) {
    forall i :: 0 <= i < |lines| ==> Fields(lines[i]) != []
  }

  /** The term and chunk of each consumed line, in the order consumed. */
  function TakenOf(lines: seq<string>): (steps: seq<Taken>)
    requires AllHaveFields(lines)
    ensures |steps| == |lines|
    ensures forall i :: 0 <= i < |lines| ==> steps[i] == Taken(FirstField(lines[i]), Chunk(lines[i]))
  {
    seq(|lines|, i requires 0 <= i < |lines| => Taken(FirstField(lines[i]), Chunk(lines[i])))
  }

  /** What one step does to the output: a term that differs from the last one starts a new line, an equal one extends it. */
  function Emit(out: seq<OutputLine>, step: Taken): (r: seq<OutputLine>)
    ensures |r| >= 1 && r[|r| - 1].term == step.term
  {
    if out != [] && out[|out| - 1].term == step.term then
      out[..|out| - 1] + [OutputLine(step.term, out[|out| - 1].chunks + [step.chunk])]
    else
      out + [OutputLine(step.term, [step.chunk])]
  }

  /** The output after the merge has taken `steps` in this order. */
  function Assemble(steps: seq<Taken>): (out: seq<OutputLine>)
    ensures steps == [] <==> out == []
    decreases |steps|
  {
    if steps == [] then [] else Emit(Assemble(steps[..|steps| - 1]), steps[|steps| - 1])
  }

  /** The terms of the output lines, in file order. */
  function OutputTerms(out: seq<OutputLine>): (ts: seq<string>)
    ensures |ts| == |out| && forall i :: 0 <= i < |out| ==> ts[i] == out[i].term
  {
    seq(|out|, i requires 0 <= i < |out| => out[i].term)
  }

  /** The chunks of all output lines, in file order. */
  function OutputChunks(out: seq<OutputLine>): seq<string>
    decreases |out|
  {
    if out == [] then [] else OutputChunks(out[..|out| - 1]) + out[|out| - 1].chunks
  }

  /** Some step took a line with term `t`. */
  predicate TakesTerm(steps: seq<Taken>, t: string) {
    exists i :: 0 <= i < |steps| && steps[i].term == t
  }

  /** The chunks of the steps taken. */
  function StepChunks(steps: seq<Taken>): (cs: seq<string>)
    ensures |cs| == |steps| && forall i :: 0 <= i < |steps| ==> cs[i] == steps[i].chunk
  {
    seq(|steps|, i requires 0 <= i < |steps| => steps[i].chunk)
  }

  predicate StrictlyIncreasing(ts: seq<string>) {
    forall i, j :: 0 <= i < j < |ts| ==> Less(ts[i], ts[j])
  }

  /** Terms in non-decreasing order. */
  predicate TermsInOrder(steps: seq<Taken>) {
    forall i :: 0 < i < |steps| ==> LessEq(steps[i - 1].term, steps[i].term)
  }

  lemma OutputChunksAppend(a: seq<OutputLine>, o: OutputLine)
    ensures OutputChunks(a + [o]) == OutputChunks(a) + o.chunks
  {
    assert (a + [o])[..|a|] == a;
  }

  /** One step on the chunks: the step's chunk is appended to what was written. */
  lemma EmitChunks(out: seq<OutputLine>, step: Taken)
    ensures OutputChunks(Emit(out, step)) == OutputChunks(out) + [step.chunk]
  {
    if out != [] && out[|out| - 1].term == step.term {
      var init := out[..|out| - 1];
      var last := out[|out| - 1];
      assert out == init + [last];
      OutputChunksAppend(init, last);
      OutputChunksAppend(init, OutputLine(step.term, last.chunks + [step.chunk]));
    } else {
      OutputChunksAppend(out, OutputLine(step.term, [step.chunk]));
    }
  }

  /** One step on the terms: an equal term leaves them as they are, another one is appended. */
  lemma EmitTerms(out: seq<OutputLine>, step: Taken)
    ensures OutputTerms(Emit(out, step)) ==
            if out != [] && out[|out| - 1].term == step.term then OutputTerms(out) else OutputTerms(out) + [step.term]
  {
    var r := Emit(out, step);
    if out != [] && out[|out| - 1].term == step.term {
      assert |r| == |out| && forall i :: 0 <= i < |out| ==> r[i].term == out[i].term;
    } else {
      assert |r| == |out| + 1 && forall i :: 0 <= i < |out| ==> r[i].term == out[i].term;
    }
  }

  lemma StepsSnoc(steps: seq<Taken>)
    requires steps != []
    ensures StepChunks(steps) == StepChunks(steps[..|steps| - 1]) + [steps[|steps| - 1].chunk]
  {
  }

  /** Every step's chunk is written, once, in the order the steps were taken: the output loses and repeats no posting. */
  lemma {:induction false} AssembleKeepsEveryChunk(steps: seq<Taken>)
    ensures OutputChunks(Assemble(steps)) == StepChunks(steps)
    decreases |steps|
  {
    if steps != [] {
      var p := steps[..|steps| - 1];
      AssembleKeepsEveryChunk(p);
      EmitChunks(Assemble(p), steps[|steps| - 1]);
      StepsSnoc(steps);
    }
  }

  /** The output holds exactly the terms of the steps, whatever their order. */
  lemma {:induction false} AssembleTermsSame(steps: seq<Taken>)
    ensures forall t :: t in OutputTerms(Assemble(steps)) <==> TakesTerm(steps, t)
    decreases |steps|
  {
    if steps != [] {
      var p := steps[..|steps| - 1];
      var step := steps[|steps| - 1];
      var prev := Assemble(p);
      AssembleTermsSame(p);
      EmitTerms(prev, step);
      if prev != [] && prev[|prev| - 1].term == step.term {
        assert OutputTerms(prev)[|prev| - 1] == step.term;
      }
      TakesTermSnoc(steps);
    }
  }

  lemma TakesTermSnoc(steps: seq<Taken>)
    requires steps != []
    ensures forall t :: TakesTerm(steps, t) <==> TakesTerm(steps[..|steps| - 1], t) || t == steps[|steps| - 1].term
  {
    var p := steps[..|steps| - 1];
    forall t ensures TakesTerm(steps, t) <==> TakesTerm(p, t) || t == steps[|steps| - 1].term {
      if TakesTerm(steps, t) && t != steps[|steps| - 1].term {
        var i :| 0 <= i < |steps| && steps[i].term == t;
        assert p[i] == steps[i];
      }
      if TakesTerm(p, t) {
        var i :| 0 <= i < |p| && p[i].term == t;
        assert steps[i] == p[i];
      }
    }
  }

  /** With terms in non-decreasing order, each distinct term starts exactly one output line,
      so the output terms are strictly increasing. */
  lemma {:induction false} AssembleTermsIncreasing(steps: seq<Taken>)
    requires TermsInOrder(steps)
    ensures StrictlyIncreasing(OutputTerms(Assemble(steps)))
    decreases |steps|
  {
    if steps != [] {
      var p := steps[..|steps| - 1];
      var step := steps[|steps| - 1];
      var t := step.term;
      AssembleTermsIncreasing(p);
      var prev := Assemble(p);
      EmitTerms(prev, step);
      if prev != [] && prev[|prev| - 1].term != t {
        // the last output term is the term of the last step before, which precedes t
        var last := prev[|prev| - 1].term;
        assert last == p[|p| - 1].term;
        assert LessEq(last, t);
        var ts := OutputTerms(prev) + [t];
        forall i, j | 0 <= i < j < |ts| ensures Less(ts[i], ts[j]) {
          if j == |ts| - 1 && i < j - 1 {
            LessLessEqTransitive(ts[i], last, t);
          }
        }
      }
    }
  }

  // ---------------------------------------------------------------------------
  // Open blocks
  // ---------------------------------------------------------------------------

  /** An open block file: which block it reads and the index of its current line. */
  datatype Cursor = Cursor(block: nat, pos: nat)

  /** The lines still to be consumed through one cursor, its current line included. */
  function Pending(blocks: seq<seq<string>>, c: Cursor): seq<string> {
    if c.block < |blocks| && c.pos <= |Live(blocks[c.block])| then Live(blocks[c.block])[c.pos..] else []
  }

  /** The lines still to be consumed through all open cursors. */
  function AllPending(blocks: seq<seq<string>>, cs: seq<Cursor>): multiset<string>
    decreases |cs|
  {
    if cs == [] then multiset{} else multiset(Pending(blocks, cs[0])) + AllPending(blocks, cs[1..])
  }

  /** Every line the merge can consume, over all blocks. */
  function AllLive(blocks: seq<seq<string>>): multiset<string>
    decreases |blocks|
  {
    if blocks == [] then multiset{} else AllLive(blocks[..|blocks| - 1]) + multiset(Live(blocks[|blocks| - 1]))
  }

  lemma {:induction false} AllPendingAppend(blocks: seq<seq<string>>, a: seq<Cursor>, b: seq<Cursor>)
    ensures AllPending(blocks, a + b) == AllPending(blocks, a) + AllPending(blocks, b)
    decreases |a|
  {
    if a == [] {
      assert a + b == b;
    } else {
      var x := multiset(Pending(blocks, a[0]));
      assert (a + b)[0] == a[0] && (a + b)[1..] == a[1..] + b;
      AllPendingAppend(blocks, a[1..], b);
      calc {
        AllPending(blocks, a + b);
        x + AllPending(blocks, a[1..] + b);
        x + (AllPending(blocks, a[1..]) + AllPending(blocks, b));
        (x + AllPending(blocks, a[1..])) + AllPending(blocks, b);
        AllPending(blocks, a) + AllPending(blocks, b);
      }
    }
  }

  /** Taking cursor m out of the list takes its pending lines out of the pool. */
  lemma AllPendingRemove(blocks: seq<seq<string>>, cs: seq<Cursor>, m: nat)
    requires m < |cs|
    ensures AllPending(blocks, cs) == AllPending(blocks, cs[..m] + cs[m + 1..]) + multiset(Pending(blocks, cs[m]))
  {
    assert cs == cs[..m] + [cs[m]] + cs[m + 1..];
    AllPendingAppend(blocks, cs[..m] + [cs[m]], cs[m + 1..]);
    AllPendingAppend(blocks, cs[..m], [cs[m]]);
    AllPendingAppend(blocks, cs[..m], cs[m + 1..]);
  }

  /** Replacing cursor m by another replaces its pending lines in the pool. */
  lemma AllPendingReplace(blocks: seq<seq<string>>, cs: seq<Cursor>, m: nat, c: Cursor)
    requires m < |cs|
    ensures AllPending(blocks, cs[m := c]) + multiset(Pending(blocks, cs[m])) ==
            AllPending(blocks, cs) + multiset(Pending(blocks, c))
  {
    AllPendingRemove(blocks, cs, m);
    AllPendingRemove(blocks, cs[m := c], m);
    assert cs[m := c][..m] + cs[m := c][m + 1..] == cs[..m] + cs[m + 1..];
  }

  /** The cursors of the first n blocks, each at its first line. */
  function Opened(n: nat): (cs: seq<Cursor>)
    ensures |cs| == n && forall i :: 0 <= i < n ==> cs[i] == Cursor(i, 0)
  {
    if n == 0 then [] else Opened(n - 1) + [Cursor(n - 1, 0)]
  }

  /** Opening the first n blocks puts exactly their live lines in the pool. */
  lemma {:induction false} OpenedPending(blocks: seq<seq<string>>, n: nat)
    requires n <= |blocks|
    ensures AllPending(blocks, Opened(n)) == AllLive(blocks[..n])
    decreases n
  {
    if n > 0 {
      OpenedPending(blocks, n - 1);
      OpenedStep(blocks, n);
    }
  }

  /** Opening block n - 1 adds its live lines to the pool. */
  lemma OpenedStep(blocks: seq<seq<string>>, n: nat)
    requires 0 < n <= |blocks|
    requires AllPending(blocks, Opened(n - 1)) == AllLive(blocks[..n - 1])
    ensures AllPending(blocks, Opened(n)) == AllLive(blocks[..n])
  {
    var c := Cursor(n - 1, 0);
    assert Opened(n) == Opened(n - 1) + [c];
    AllPendingAppend(blocks, Opened(n - 1), [c]);
    SingleCursorPending(blocks, c);
    AllLivePrefix(blocks, n);
  }

  lemma AllLivePrefix(blocks: seq<seq<string>>, n: nat)
    requires 0 < n <= |blocks|
    ensures AllLive(blocks[..n]) == AllLive(blocks[..n - 1]) + multiset(Live(blocks[n - 1]))
  {
    assert blocks[..n][..n - 1] == blocks[..n - 1];
  }

  lemma SingleCursorPending(blocks: seq<seq<string>>, c: Cursor)
    requires c.block < |blocks| && c.pos == 0
    ensures AllPending(blocks, [c]) == multiset(Live(blocks[c.block]))
  {
    assert Pending(blocks, c) == Live(blocks[c.block]);
    assert AllPending(blocks, [c]) == multiset(Pending(blocks, c)) + AllPending(blocks, []);
  }

  // ---------------------------------------------------------------------------
  // The initial filter of empty blocks
  // ---------------------------------------------------------------------------

  /**
   * The filter as written at index.py:153-159: `for b in block_files` walks the list by
   * position while the body pops from it, so each pop makes the walk end one element early.
   * `it` is the walk's position, `i` the index the body inspects.
   */
  function DropEmptyAsWritten(lines: seq<string>, i: nat, it: nat): seq<string>
    requires i <= it
    decreases |lines| - it
  {
    if it >= |lines| then lines
    else if lines[i] == "" then DropEmptyAsWritten(lines[..i] + lines[i + 1..], i, it + 1)
    else DropEmptyAsWritten(lines, i + 1, it + 1)
  }

  /**
   * Counterexample: with two empty blocks, one survives the filter, and the first merge step
   * then takes "" as the smallest line, whose `split()` has no element 0 (IndexError): `Merge`
   * fails on two empty block files, although there is nothing to merge and nothing without a term.
   */
  lemma DropEmptyAsWrittenKeepsAnEmptyBlock()
    ensures DropEmptyAsWritten(["", ""], 0, 0) == [""]
    ensures DropEmptyAsWritten(["", "a 12:3"], 0, 0) == ["a 12:3"]
    ensures DropEmptyAsWritten(["", "a 12:3", ""], 0, 0) == ["a 12:3", ""]
    ensures Fields("") == []
    ensures OpenedLines([[], []]) == [""] && AllLive([[], []]) == multiset{} && LiveHaveFields([[], []])
  {
    var two := ["", ""];
    assert FirstLines([[], []]) == two;
    assert AllLive([[], []]) == AllLive([[]]) + multiset(Live([]));
    assert AllLive([[]]) == AllLive([]) + multiset(Live([]));
    assert two[..0] + two[1..] == [""];
    var three := ["", "a 12:3", ""];
    assert three[..0] + three[1..] == ["a 12:3", ""];
    var mixed := ["", "a 12:3"];
    assert mixed[..0] + mixed[1..] == ["a 12:3"];
  }

  /** The filter as written never drops a non-empty line and keeps their order: it differs from
      the intended filter only by the empty lines it leaves. */
  lemma {:induction false} DropEmptyAsWrittenKeepsNonEmpty(lines: seq<string>, i: nat, it: nat)
    requires i <= it
    ensures NonEmptyLines(DropEmptyAsWritten(lines, i, it)) == NonEmptyLines(lines)
    decreases |lines| - it
  {
    if it < |lines| {
      if lines[i] == "" {
        var rest := lines[..i] + lines[i + 1..];
        DropEmptyAsWrittenKeepsNonEmpty(rest, i, it + 1);
        assert lines == lines[..i] + [lines[i]] + lines[i + 1..];
        NonEmptyLinesAppend(lines[..i] + [lines[i]], lines[i + 1..]);
        NonEmptyLinesAppend(lines[..i], [lines[i]]);
        NonEmptyLinesAppend(lines[..i], lines[i + 1..]);
        assert NonEmptyLines([lines[i]]) == NonEmptyLines([lines[i]][..0]);
      } else {
        DropEmptyAsWrittenKeepsNonEmpty(lines, i + 1, it + 1);
      }
    }
  }

  lemma {:induction false} NonEmptyLinesAppend(a: seq<string>, b: seq<string>)
    ensures NonEmptyLines(a + b) == NonEmptyLines(a) + NonEmptyLines(b)
    decreases |b|
  {
    if b == [] {
      assert a + b == a;
    } else {
      var n := |b| - 1;
      assert (a + b)[..|a + b| - 1] == a + b[..n];
      NonEmptyLinesAppend(a, b[..n]);
    }
  }

  /** The intended filter on the first lines: the non-empty ones, in order. */
  function NonEmptyLines(lines: seq<string>): seq<string>
    decreases |lines|
  {
    if lines == [] then []
    else NonEmptyLines(lines[..|lines| - 1]) + (if lines[|lines| - 1] != "" then [lines[|lines| - 1]] else [])
  }

  /** The cursors the intended filter keeps: those whose first line is non-empty, in order. */
  function NonEmptyCursors(lines: seq<string>, cursors: seq<Cursor>): seq<Cursor>
    requires |lines| == |cursors|
    decreases |lines|
  {
    if lines == [] then []
    else
      var n := |lines| - 1;
      NonEmptyCursors(lines[..n], cursors[..n]) + (if lines[n] != "" then [cursors[n]] else [])
  }

  /** The intended filter: drop every block whose first line is empty, keep the others in order.
      `origin` maps each kept block to its position in the input. */
  method DropEmptyBlocks(lines: seq<string>, cursors: seq<Cursor>)
    returns (keptLines: seq<string>, kept: seq<Cursor>, ghost origin: seq<nat>)
    requires |lines| == |cursors|
    ensures keptLines == NonEmptyLines(lines) && kept == NonEmptyCursors(lines, cursors)
    ensures |keptLines| == |kept| == |origin|
    ensures forall i :: 0 <= i < |kept| ==> origin[i] < |cursors| && kept[i] == cursors[origin[i]] && keptLines[i] == lines[origin[i]]
  {
    keptLines, kept, origin := [], [], [];
    var i := 0;
    while i < |lines|
      invariant 0 <= i <= |lines|
      invariant keptLines == NonEmptyLines(lines[..i]) && kept == NonEmptyCursors(lines[..i], cursors[..i])
      invariant |keptLines| == |kept| == |origin|
      invariant forall k :: 0 <= k < |kept| ==> origin[k] < i && kept[k] == cursors[origin[k]] && keptLines[k] == lines[origin[k]]
    {
      assert lines[..i + 1][..i] == lines[..i] && cursors[..i + 1][..i] == cursors[..i];
      if lines[i] != "" {
        keptLines, kept, origin := keptLines + [lines[i]], kept + [cursors[i]], origin + [i];
      }
      i := i + 1;
    }
    assert lines[..i] == lines && cursors[..i] == cursors;
  }

  /** Every kept line is non-empty, and, when every dropped block has nothing to read, no line is lost. */
  lemma {:induction false} NonEmptyKeepsPool(blocks: seq<seq<string>>, lines: seq<string>, cursors: seq<Cursor>)
    requires |lines| == |cursors|
    requires forall j :: 0 <= j < |cursors| && lines[j] == "" ==> Pending(blocks, cursors[j]) == []
    ensures AllPending(blocks, NonEmptyCursors(lines, cursors)) == AllPending(blocks, cursors)
    decreases |lines|
  {
    if lines != [] {
      var n := |lines| - 1;
      var init, initCursors := lines[..n], cursors[..n];
      assert forall j :: 0 <= j < n ==> init[j] == lines[j] && initCursors[j] == cursors[j];
      NonEmptyKeepsPool(blocks, init, initCursors);
      var keptBefore := NonEmptyCursors(init, initCursors);
      InitLast(cursors);
      if lines[n] != "" {
        assert NonEmptyCursors(lines, cursors) == keptBefore + [cursors[n]];
        KeepStep(blocks, keptBefore, initCursors, cursors[n]);
      } else {
        assert NonEmptyCursors(lines, cursors) == keptBefore;
        DropStep(blocks, keptBefore, initCursors, cursors[n]);
      }
    }
  }

  /** The filter keeps no empty line. */
  lemma {:induction false} NonEmptyLinesNonEmpty(lines: seq<string>)
    ensures forall i :: 0 <= i < |NonEmptyLines(lines)| ==> NonEmptyLines(lines)[i] != ""
    ensures forall l :: l in lines && l != "" <==> l in NonEmptyLines(lines)
    decreases |lines|
  {
    if lines != [] {
      var n := |lines| - 1;
      NonEmptyLinesNonEmpty(lines[..n]);
      assert lines == lines[..n] + [lines[n]];
    }
  }

  /** A non-empty sequence is its initial part followed by its last element. */
  lemma InitLast<T>(s: seq<T>)
    requires s != []
    ensures s == s[..|s| - 1] + [s[|s| - 1]]
  {
  }

  /** A kept cursor carries its pending lines along. */
  lemma KeepStep(blocks: seq<seq<string>>, kept: seq<Cursor>, prefix: seq<Cursor>, c: Cursor)
    requires AllPending(blocks, kept) == AllPending(blocks, prefix)
    ensures AllPending(blocks, kept + [c]) == AllPending(blocks, prefix + [c])
  {
    AllPendingAppend(blocks, prefix, [c]);
    AllPendingAppend(blocks, kept, [c]);
  }

  /** A dropped cursor has no pending line to lose. */
  lemma DropStep(blocks: seq<seq<string>>, kept: seq<Cursor>, prefix: seq<Cursor>, c: Cursor)
    requires Pending(blocks, c) == []
    requires AllPending(blocks, kept) == AllPending(blocks, prefix)
    ensures AllPending(blocks, kept) == AllPending(blocks, prefix + [c])
  {
    AllPendingAppend(blocks, prefix, [c]);
    assert AllPending(blocks, [c]) == multiset(Pending(blocks, c)) + AllPending(blocks, []);
  }

  // ---------------------------------------------------------------------------
  // The merge
  // ---------------------------------------------------------------------------

  /** `lines.index(min(lines))`: the first position of the smallest line. */
  method MinIndex(lines: seq<string>) returns (m: nat)
    requires |lines| > 0
    ensures m < |lines|
    ensures forall i :: 0 <= i < |lines| ==> LessEq(lines[m], lines[i])
    ensures forall i :: 0 <= i < m ==> lines[i] != lines[m]
  {
    m := 0;
    var i := 1;
    while i < |lines|
      invariant 1 <= i <= |lines| && m < i
      invariant forall j :: 0 <= j < i ==> LessEq(lines[m], lines[j])
      invariant forall j :: 0 <= j < m ==> Less(lines[m], lines[j])
    {
      if Less(lines[i], lines[m]) {
        forall j | 0 <= j < i ensures Less(lines[i], lines[j]) {
          LessLessEqTransitive(lines[i], lines[m], lines[j]);
        }
        m := i;
      } else {
        NotLessIsLessEq(lines[m], lines[i]);
      }
      i := i + 1;
    }
    forall j | 0 <= j < m ensures lines[j] != lines[m] {
      if lines[j] == lines[m] {
        LessIrreflexive(lines[m]);
      }
    }
  }

  /** Every block sorted by whole line. */
  predicate BlocksSorted(blocks: seq<seq<string>>) {
    forall b :: 0 <= b < |blocks| ==> SortedLines(blocks[b])
  }

  /** The cursors point at live lines and `lines` holds the line under each cursor. */
  predicate CursorsAt(blocks: seq<seq<string>>, cursors: seq<Cursor>, lines: seq<string>) {
    |cursors| == |lines| &&
    forall i :: 0 <= i < |cursors| ==>
      cursors[i].block < |blocks| && cursors[i].pos < |Live(blocks[cursors[i].block])| &&
      lines[i] == Live(blocks[cursors[i].block])[cursors[i].pos]
  }

  /** `x` is no greater than any line still pending. */
  predicate BelowPending(blocks: seq<seq<string>>, cursors: seq<Cursor>, x: string) {
    forall i, j :: 0 <= i < |cursors| && 0 <= j < |Pending(blocks, cursors[i])| ==>
      LessEq(x, Pending(blocks, cursors[i])[j])
  }

  predicate SortedPicked(picked: seq<string>) {
    forall i :: 0 < i < |picked| ==> LessEq(picked[i - 1], picked[i])
  }

  /** The first line of every block, as `readline()[:-1]` gives it right after opening. */
  function FirstLines(blocks: seq<seq<string>>): (lines: seq<string>)
    ensures |lines| == |blocks| && forall i :: 0 <= i < |blocks| ==> lines[i] == ReadLine(blocks[i], 0)
  {
    seq(|blocks|, i requires 0 <= i < |blocks| => ReadLine(blocks[i], 0))
  }

  /** The current lines the merge starts from, once the filter as written has run. */
  function OpenedLines(blocks: seq<seq<string>>): seq<string> {
    DropEmptyAsWritten(FirstLines(blocks), 0, 0)
  }

  /** A freshly opened block: cursor at the first line, `line` being what the first read gave. */
  predicate AtFirstLine(blocks: seq<seq<string>>, c: Cursor, line: string) {
    c.block < |blocks| && c.pos == 0 && line == ReadLine(blocks[c.block], 0)
  }

  /** Every open block at its first line. */
  predicate AllAtFirstLine(blocks: seq<seq<string>>, cursors: seq<Cursor>, lines: seq<string>) {
    |cursors| == |lines| && forall k :: 0 <= k < |cursors| ==> AtFirstLine(blocks, cursors[k], lines[k])
  }

  /**
   * The state the merge loop starts from: one current line per open block, every live line
   * pending, and the cursors on live lines unless an empty current line is left.
   */
  predicate Opening(blocks: seq<seq<string>>, cursors: seq<Cursor>, lines: seq<string>) {
    |cursors| == |lines| && AllPending(blocks, cursors) == AllLive(blocks) &&
    ("" !in lines ==> CursorsAt(blocks, cursors, lines))
  }

  /**
   * The filter loop of index.py:153-159 on the open blocks: `i` is the position the body
   * inspects, `it` the position of the `for` walk, which ends when it reaches the length of
   * the shrinking list. A block whose first line is empty is popped together with its line.
   */
  method DropEmptyAsWrittenBlocks(blocks: seq<seq<string>>, lines0: seq<string>, cursors0: seq<Cursor>)
    returns (lines: seq<string>, cursors: seq<Cursor>)
    requires AllAtFirstLine(blocks, cursors0, lines0)
    ensures lines == DropEmptyAsWritten(lines0, 0, 0)
    ensures AllAtFirstLine(blocks, cursors, lines)
    ensures AllPending(blocks, cursors) == AllPending(blocks, cursors0)
  {
    lines, cursors := lines0, cursors0;
    var i, it := 0, 0;
    while it < |lines|
      invariant i <= it
      invariant DropEmptyAsWritten(lines, i, it) == DropEmptyAsWritten(lines0, 0, 0)
      invariant AllAtFirstLine(blocks, cursors, lines)
      invariant AllPending(blocks, cursors) == AllPending(blocks, cursors0)
      decreases |lines| - it
    {
      if lines[i] == "" {
        PopEmptyBlock(blocks, cursors, lines, i);
        lines, cursors := lines[..i] + lines[i + 1..], cursors[..i] + cursors[i + 1..];
      } else {
        i := i + 1;
      }
      it := it + 1;
    }
  }

  /** Popping a block whose first line is empty loses no pending line and keeps the others at their first lines. */
  lemma PopEmptyBlock(blocks: seq<seq<string>>, cursors: seq<Cursor>, lines: seq<string>, i: nat)
    requires AllAtFirstLine(blocks, cursors, lines) && i < |lines| && lines[i] == ""
    ensures AllAtFirstLine(blocks, cursors[..i] + cursors[i + 1..], lines[..i] + lines[i + 1..])
    ensures AllPending(blocks, cursors[..i] + cursors[i + 1..]) == AllPending(blocks, cursors)
  {
    var rest, restLines := cursors[..i] + cursors[i + 1..], lines[..i] + lines[i + 1..];
    forall k | 0 <= k < |rest| ensures AtFirstLine(blocks, rest[k], restLines[k]) {
      var j := if k < i then k else k + 1;
      assert rest[k] == cursors[j] && restLines[k] == lines[j];
    }
    ReadLineLive(blocks[cursors[i].block], 0);
    assert Pending(blocks, cursors[i]) == [];
    AllPendingRemove(blocks, cursors, i);
  }

  /** Blocks at their first lines, with every empty one dropped, sit on live lines. */
  lemma FirstLinesLive(blocks: seq<seq<string>>, cursors: seq<Cursor>, lines: seq<string>)
    requires AllAtFirstLine(blocks, cursors, lines) && "" !in lines
    ensures CursorsAt(blocks, cursors, lines)
  {
    forall k | 0 <= k < |cursors|
      ensures cursors[k].pos < |Live(blocks[cursors[k].block])|
      ensures lines[k] == Live(blocks[cursors[k].block])[cursors[k].pos]
    {
      assert lines[k] in lines;
      ReadLineLive(blocks[cursors[k].block], 0);
    }
  }

  /** Opening every block and reading its first line, then the filter of empty blocks as written. */
  method OpenBlocks(blocks: seq<seq<string>>) returns (lines: seq<string>, cursors: seq<Cursor>)
    ensures lines == OpenedLines(blocks)
    ensures Opening(blocks, cursors, lines)
  {
    var openCursors := Opened(|blocks|);
    var firstLines := FirstLines(blocks);
    OpenedPending(blocks, |blocks|);
    assert blocks[..|blocks|] == blocks;
    lines, cursors := DropEmptyAsWrittenBlocks(blocks, firstLines, openCursors);
    if "" !in lines {
      FirstLinesLive(blocks, cursors, lines);
    }
  }

  /** Opening every block and reading its first line, then the intended filter: every empty block is dropped. */
  method OpenBlocksIntended(blocks: seq<seq<string>>) returns (lines: seq<string>, cursors: seq<Cursor>)
    ensures "" !in lines
    ensures Opening(blocks, cursors, lines)
  {
    var openCursors := Opened(|blocks|);
    var firstLines := FirstLines(blocks);
    OpenedPending(blocks, |blocks|);
    assert blocks[..|blocks|] == blocks;
    forall j | 0 <= j < |openCursors| && firstLines[j] == "" ensures Pending(blocks, openCursors[j]) == [] {
      ReadLineLive(blocks[j], 0);
    }
    NonEmptyKeepsPool(blocks, firstLines, openCursors);
    ghost var origin;
    lines, cursors, origin := DropEmptyBlocks(firstLines, openCursors);
    NonEmptyLinesNonEmpty(firstLines);
    forall i | 0 <= i < |cursors|
      ensures cursors[i].block < |blocks| && cursors[i].pos < |Live(blocks[cursors[i].block])|
      ensures lines[i] == Live(blocks[cursors[i].block])[cursors[i].pos]
    {
      assert lines[i] != "";
      ReadLineLive(blocks[origin[i]], 0);
    }
    assert "" !in lines by {
      forall i | 0 <= i < |lines| ensures lines[i] != "" {
        assert lines[i] == NonEmptyLines(firstLines)[i];
      }
    }
  }

  /**
   * What holds between two steps of the merge: the cursors sit on live lines, every live line
   * is either consumed or still pending, every consumed line has a term, and with sorted
   * blocks the lines are consumed in order and the last one is below everything pending.
   */
  predicate MergeState(blocks: seq<seq<string>>, cursors: seq<Cursor>, lines: seq<string>, picked: seq<string>) {
    CursorsAt(blocks, cursors, lines) &&
    multiset(picked) + AllPending(blocks, cursors) == AllLive(blocks) &&
    AllHaveFields(picked) &&
    (BlocksSorted(blocks) ==> SortedPicked(picked)) &&
    (BlocksSorted(blocks) && picked != [] ==> BelowPending(blocks, cursors, picked[|picked| - 1]))
  }

  /** Every line the merge can consume has a field to serve as its term. */
  predicate LiveHaveFields(blocks: seq<seq<string>>) {
    forall l | l in AllLive(blocks) :: Fields(l) != []
  }

  /**
   * `merge_blocks` on the contents of the block files. Returns whether it ran to the end
   * (false: the smallest current line had no field, an IndexError in the source), the output
   * lines written, and, as a ghost, the lines consumed, in the order they were taken. It runs
   * to the end exactly when no empty block survives the filter and every live line has a
   * term, and then it has consumed every live line once.
   */
  method Merge(blocks: seq<seq<string>>) returns (ok: bool, out: seq<OutputLine>, ghost picked: seq<string>)
    ensures AllHaveFields(picked) && out == Assemble(TakenOf(picked))
    ensures ok <==> "" !in OpenedLines(blocks) && LiveHaveFields(blocks)
    ensures ok ==> multiset(picked) == AllLive(blocks)
    ensures "" in OpenedLines(blocks) ==> picked == [] && out == []
    ensures multiset(picked) <= AllLive(blocks)
    ensures BlocksSorted(blocks) ==> SortedPicked(picked)
  {
    var lines, cursors := OpenBlocks(blocks);
    ok, out, picked := MergeOpened(blocks, lines, cursors);
  }

  /** The merge after the intended filter: it runs to the end exactly when every live line has a term. */
  method MergeIntended(blocks: seq<seq<string>>) returns (ok: bool, out: seq<OutputLine>, ghost picked: seq<string>)
    ensures AllHaveFields(picked) && out == Assemble(TakenOf(picked))
    ensures ok <==> LiveHaveFields(blocks)
    ensures ok ==> multiset(picked) == AllLive(blocks)
    ensures multiset(picked) <= AllLive(blocks)
    ensures BlocksSorted(blocks) ==> SortedPicked(picked)
  {
    var lines, cursors := OpenBlocksIntended(blocks);
    ok, out, picked := MergeOpened(blocks, lines, cursors);
  }

  /** The `while len(block_files) > 0` loop, from the open blocks and their current lines. */
  method MergeOpened(blocks: seq<seq<string>>, lines0: seq<string>, cursors0: seq<Cursor>)
    returns (ok: bool, out: seq<OutputLine>, ghost picked: seq<string>)
    requires Opening(blocks, cursors0, lines0)
    ensures AllHaveFields(picked) && out == Assemble(TakenOf(picked))
    ensures ok <==> "" !in lines0 && LiveHaveFields(blocks)
    ensures ok ==> multiset(picked) == AllLive(blocks)
    ensures "" in lines0 ==> picked == [] && out == []
    ensures multiset(picked) <= AllLive(blocks)
    ensures BlocksSorted(blocks) ==> SortedPicked(picked)
  {
    var lines, cursors := lines0, cursors0;
    var mostRecentTerm := "";
    ok, out, picked := true, [], [];
    while |cursors| > 0
      invariant |cursors| == |lines| && AllHaveFields(picked)
      invariant ("" in lines0 && "" in lines && picked == []) || ("" !in lines0 && MergeState(blocks, cursors, lines, picked))
      invariant out == Assemble(TakenOf(picked))
      invariant mostRecentTerm == if out == [] then "" else out[|out| - 1].term
      decreases |AllLive(blocks)| - |picked|
    {
      var m := MinIndex(lines);
      var line := lines[m];
      var hasTerm, currentTerm, currentPostings := SplitRecord(line);
      if !hasTerm {
        if "" !in lines0 {
          LineInPool(blocks, cursors, lines, picked, m);
        }
        ok := false;
        break;
      }
      EmptyLineIsLeast(lines, m);
      TakeLine(picked, line);
      out, mostRecentTerm := WriteChunk(out, mostRecentTerm, currentTerm, currentPostings);

      cursors, lines := ReadNext(blocks, cursors, lines, m, picked);
      picked := picked + [line];
    }
    if ok {
      assert AllPending(blocks, cursors) == multiset{};
      forall l | l in AllLive(blocks) ensures Fields(l) != [] {
        assert l in multiset(picked);
      }
    }
  }

  /** An empty current line is the smallest, so `min(lines)` picks one. */
  lemma EmptyLineIsLeast(lines: seq<string>, m: nat)
    requires m < |lines| && forall i :: 0 <= i < |lines| ==> LessEq(lines[m], lines[i])
    ensures "" in lines ==> lines[m] == ""
  {
  }

  /** The current line under a cursor is a live line not yet consumed. */
  lemma LineInPool(blocks: seq<seq<string>>, cursors: seq<Cursor>, lines: seq<string>, picked: seq<string>, m: nat)
    requires MergeState(blocks, cursors, lines, picked) && m < |lines|
    ensures lines[m] in AllLive(blocks)
  {
    AllPendingRemove(blocks, cursors, m);
    assert Pending(blocks, cursors[m])[0] == lines[m];
  }

  /** `line.split()[0]` and the sorted, space-joined rest; no term when the line has no field (an IndexError in the source). */
  method SplitRecord(line: string) returns (hasTerm: bool, term: string, postings: string)
    ensures hasTerm <==> Fields(line) != []
    ensures hasTerm ==> term != "" && term == FirstField(line) && postings == Chunk(line)
  {
    var fields := Fields(line);
    if |fields| == 0 {
      return false, "", "";
    }
    hasTerm, term, postings := true, fields[0], Join(SortStrings(fields[1..]), " ");
  }

  /** Writing one chunk to the output: `"\n%s %s"` for a new term, `" %s"` for the term just written. */
  method WriteChunk(out: seq<OutputLine>, mostRecentTerm: string, term: string, postings: string)
    returns (out': seq<OutputLine>, mostRecentTerm': string)
    requires term != ""
    requires mostRecentTerm == if out == [] then "" else out[|out| - 1].term
    ensures out' == Emit(out, Taken(term, postings))
    ensures mostRecentTerm' == term == out'[|out'| - 1].term
  {
    if term != mostRecentTerm {
      out' := out + [OutputLine(term, [postings])];
      mostRecentTerm' := term;
    } else {
      out' := out[..|out| - 1] + [OutputLine(term, out[|out| - 1].chunks + [postings])];
      mostRecentTerm' := mostRecentTerm;
    }
  }

  /** `lines[min_index] = block_files[min_index].readline()[:-1]`, and the block is retired when that gives "". */
  method ReadNext(blocks: seq<seq<string>>, cursors: seq<Cursor>, lines: seq<string>, m: nat, ghost picked: seq<string>)
    returns (cursors': seq<Cursor>, lines': seq<string>)
    requires MergeState(blocks, cursors, lines, picked)
    requires m < |lines| && forall i :: 0 <= i < |lines| ==> LessEq(lines[m], lines[i])
    requires Fields(lines[m]) != []
    ensures MergeState(blocks, cursors', lines', picked + [lines[m]])
    ensures |picked| < |AllLive(blocks)|
  {
    var c := cursors[m];
    var next := ReadLine(blocks[c.block], c.pos + 1);
    if next == "" {
      RetireStep(blocks, cursors, lines, picked, m);
      cursors', lines' := cursors[..m] + cursors[m + 1..], lines[..m] + lines[m + 1..];
    } else {
      AdvanceStep(blocks, cursors, lines, picked, m);
      cursors', lines' := cursors[m := Cursor(c.block, c.pos + 1)], lines[m := next];
    }
  }

  /** The smallest current line is consumed and its block retired. */
  lemma RetireStep(blocks: seq<seq<string>>, cursors: seq<Cursor>, lines: seq<string>, picked: seq<string>, m: nat)
    requires MergeState(blocks, cursors, lines, picked)
    requires m < |lines| && forall i :: 0 <= i < |lines| ==> LessEq(lines[m], lines[i])
    requires Fields(lines[m]) != []
    requires ReadLine(blocks[cursors[m].block], cursors[m].pos + 1) == ""
    ensures MergeState(blocks, cursors[..m] + cursors[m + 1..], lines[..m] + lines[m + 1..], picked + [lines[m]])
    ensures |picked| < |AllLive(blocks)|
  {
    var line := lines[m];
    var rest := cursors[..m] + cursors[m + 1..];
    var restLines := lines[..m] + lines[m + 1..];
    RetireCursor(blocks, cursors, lines, m);
    PoolStep(picked, line, AllPending(blocks, cursors), AllPending(blocks, rest), AllLive(blocks));
    assert AllHaveFields(picked + [line]);
    if BlocksSorted(blocks) {
      SortedAfterStep(blocks, cursors, lines, picked, m);
      BelowPendingSubset(blocks, cursors, rest, m, line);
    }
    assert CursorsAt(blocks, rest, restLines);
  }

  /** The smallest current line is consumed and its block moves on to the next line. */
  lemma AdvanceStep(blocks: seq<seq<string>>, cursors: seq<Cursor>, lines: seq<string>, picked: seq<string>, m: nat)
    requires MergeState(blocks, cursors, lines, picked)
    requires m < |lines| && forall i :: 0 <= i < |lines| ==> LessEq(lines[m], lines[i])
    requires Fields(lines[m]) != []
    requires ReadLine(blocks[cursors[m].block], cursors[m].pos + 1) != ""
    ensures MergeState(blocks, cursors[m := Cursor(cursors[m].block, cursors[m].pos + 1)],
                       lines[m := ReadLine(blocks[cursors[m].block], cursors[m].pos + 1)], picked + [lines[m]])
    ensures |picked| < |AllLive(blocks)|
  {
    var line := lines[m];
    var after := cursors[m := Cursor(cursors[m].block, cursors[m].pos + 1)];
    AdvanceCursor(blocks, cursors, lines, m);
    PoolStep(picked, line, AllPending(blocks, cursors), AllPending(blocks, after), AllLive(blocks));
    assert AllHaveFields(picked + [line]);
    if BlocksSorted(blocks) {
      SortedAfterStep(blocks, cursors, lines, picked, m);
      BelowPendingAdvance(blocks, cursors, m, line);
    }
  }

  /** With sorted blocks, the smallest current line extends the consumed lines in order and is below everything pending. */
  lemma SortedAfterStep(blocks: seq<seq<string>>, cursors: seq<Cursor>, lines: seq<string>, picked: seq<string>, m: nat)
    requires MergeState(blocks, cursors, lines, picked) && BlocksSorted(blocks)
    requires m < |lines| && forall i :: 0 <= i < |lines| ==> LessEq(lines[m], lines[i])
    ensures SortedPicked(picked + [lines[m]])
    ensures BelowPending(blocks, cursors, lines[m])
  {
    if picked != [] {
      BelowPendingLine(blocks, cursors, lines, m, picked[|picked| - 1]);
    }
    SortedPickedStep(picked, lines[m]);
    LineBelowPending(blocks, cursors, lines, m);
  }

  /** The line taken moves from the pool of pending lines to the consumed ones; nothing else moves. */
  lemma PoolStep(picked: seq<string>, line: string, before: multiset<string>, after: multiset<string>, all: multiset<string>)
    requires multiset(picked) + before == all
    requires after + multiset{line} == before
    ensures multiset(picked + [line]) + after == all
    ensures |picked + [line]| <= |all|
  {
    calc {
      multiset(picked + [line]) + after;
      multiset(picked) + multiset{line} + after;
      multiset(picked) + (after + multiset{line});
      all;
    }
  }

  /** The line taken is no smaller than the line taken before it. */
  lemma SortedPickedStep(picked: seq<string>, line: string)
    requires SortedPicked(picked)
    requires picked != [] ==> LessEq(picked[|picked| - 1], line)
    ensures SortedPicked(picked + [line])
  {
  }

  /** A bound below everything pending is below every current line. */
  lemma BelowPendingLine(blocks: seq<seq<string>>, cursors: seq<Cursor>, lines: seq<string>, m: nat, x: string)
    requires CursorsAt(blocks, cursors, lines) && m < |cursors|
    requires BelowPending(blocks, cursors, x)
    ensures LessEq(x, lines[m])
  {
    assert Pending(blocks, cursors[m])[0] == lines[m];
  }

  /** Taking one more line adds one step to the output. */
  lemma TakeLine(picked: seq<string>, line: string)
    requires AllHaveFields(picked) && Fields(line) != []
    ensures AllHaveFields(picked + [line])
    ensures Assemble(TakenOf(picked + [line])) == Emit(Assemble(TakenOf(picked)), Taken(FirstField(line), Chunk(line)))
  {
    var steps := TakenOf(picked + [line]);
    assert steps[..|picked|] == TakenOf(picked);
  }

  /** Reading past the last live line of a block retires its cursor; the line taken leaves the pool. */
  lemma RetireCursor(blocks: seq<seq<string>>, cursors: seq<Cursor>, lines: seq<string>, m: nat)
    requires CursorsAt(blocks, cursors, lines) && m < |cursors|
    requires ReadLine(blocks[cursors[m].block], cursors[m].pos + 1) == ""
    ensures CursorsAt(blocks, cursors[..m] + cursors[m + 1..], lines[..m] + lines[m + 1..])
    ensures AllPending(blocks, cursors[..m] + cursors[m + 1..]) + multiset{lines[m]} == AllPending(blocks, cursors)
  {
    RetireCursorAt(blocks, cursors, lines, m);
    ReadLineLive(blocks[cursors[m].block], cursors[m].pos + 1);
    RetireCursorPool(blocks, cursors, m, lines[m]);
  }

  lemma RetireCursorAt(blocks: seq<seq<string>>, cursors: seq<Cursor>, lines: seq<string>, m: nat)
    requires CursorsAt(blocks, cursors, lines) && m < |cursors|
    ensures CursorsAt(blocks, cursors[..m] + cursors[m + 1..], lines[..m] + lines[m + 1..])
  {
    var rest := cursors[..m] + cursors[m + 1..];
    var restLines := lines[..m] + lines[m + 1..];
    forall i | 0 <= i < |rest|
      ensures rest[i].block < |blocks| && rest[i].pos < |Live(blocks[rest[i].block])|
      ensures restLines[i] == Live(blocks[rest[i].block])[rest[i].pos]
    {
      var k := if i < m then i else i + 1;
      assert rest[i] == cursors[k] && restLines[i] == lines[k];
    }
  }

  lemma RetireCursorPool(blocks: seq<seq<string>>, cursors: seq<Cursor>, m: nat, line: string)
    requires m < |cursors| && cursors[m].block < |blocks|
    requires cursors[m].pos + 1 == |Live(blocks[cursors[m].block])|
    requires line == Live(blocks[cursors[m].block])[cursors[m].pos]
    ensures AllPending(blocks, cursors[..m] + cursors[m + 1..]) + multiset{line} == AllPending(blocks, cursors)
  {
    var c := cursors[m];
    assert Pending(blocks, c) == [line];
    AllPendingRemove(blocks, cursors, m);
  }

  lemma MultisetCancel<T>(a: multiset<T>, b: multiset<T>, c: multiset<T>)
    requires a + c == b + c
    ensures a == b
  {
    forall x ensures a[x] == b[x] {
      assert (a + c)[x] == (b + c)[x];
    }
  }

  /** Reading the next live line of a block moves its cursor on; the line taken leaves the pool. */
  lemma AdvanceCursor(blocks: seq<seq<string>>, cursors: seq<Cursor>, lines: seq<string>, m: nat)
    requires CursorsAt(blocks, cursors, lines) && m < |cursors|
    requires ReadLine(blocks[cursors[m].block], cursors[m].pos + 1) != ""
    ensures var c := cursors[m];
      CursorsAt(blocks, cursors[m := Cursor(c.block, c.pos + 1)], lines[m := ReadLine(blocks[c.block], c.pos + 1)]) &&
      AllPending(blocks, cursors[m := Cursor(c.block, c.pos + 1)]) + multiset{lines[m]} == AllPending(blocks, cursors)
  {
    AdvanceCursorAt(blocks, cursors, lines, m);
    AdvanceCursorPool(blocks, cursors, m, lines[m]);
  }

  lemma AdvanceCursorAt(blocks: seq<seq<string>>, cursors: seq<Cursor>, lines: seq<string>, m: nat)
    requires CursorsAt(blocks, cursors, lines) && m < |cursors|
    requires ReadLine(blocks[cursors[m].block], cursors[m].pos + 1) != ""
    ensures var c := cursors[m];
      CursorsAt(blocks, cursors[m := Cursor(c.block, c.pos + 1)], lines[m := ReadLine(blocks[c.block], c.pos + 1)])
  {
    var c := cursors[m];
    ReadLineLive(blocks[c.block], c.pos + 1);
    var after := cursors[m := Cursor(c.block, c.pos + 1)];
    var afterLines := lines[m := ReadLine(blocks[c.block], c.pos + 1)];
    forall i | 0 <= i < |after|
      ensures after[i].block < |blocks| && after[i].pos < |Live(blocks[after[i].block])|
      ensures afterLines[i] == Live(blocks[after[i].block])[after[i].pos]
    {
      if i != m {
        assert after[i] == cursors[i] && afterLines[i] == lines[i];
      }
    }
  }

  lemma AdvanceCursorPool(blocks: seq<seq<string>>, cursors: seq<Cursor>, m: nat, line: string)
    requires m < |cursors| && cursors[m].block < |blocks|
    requires cursors[m].pos + 1 < |Live(blocks[cursors[m].block])|
    requires line == Live(blocks[cursors[m].block])[cursors[m].pos]
    ensures var c := cursors[m];
      AllPending(blocks, cursors[m := Cursor(c.block, c.pos + 1)]) + multiset{line} == AllPending(blocks, cursors)
  {
    var c := cursors[m];
    var c' := Cursor(c.block, c.pos + 1);
    var live := Live(blocks[c.block]);
    var rest := live[c.pos + 1..];
    assert Pending(blocks, c) == [line] + rest;
    assert Pending(blocks, c') == rest;
    AllPendingReplace(blocks, cursors, m, c');
    var after := cursors[m := c'];
    calc {
      (AllPending(blocks, after) + multiset{line}) + multiset(rest);
      AllPending(blocks, after) + multiset(Pending(blocks, c));
      AllPending(blocks, cursors) + multiset(rest);
    }
    MultisetCancel(AllPending(blocks, after) + multiset{line}, AllPending(blocks, cursors), multiset(rest));
  }

  /** With sorted blocks, the smallest current line is no greater than anything pending. */
  lemma LineBelowPending(blocks: seq<seq<string>>, cursors: seq<Cursor>, lines: seq<string>, m: nat)
    requires BlocksSorted(blocks) && CursorsAt(blocks, cursors, lines) && m < |lines|
    requires forall i :: 0 <= i < |lines| ==> LessEq(lines[m], lines[i])
    ensures BelowPending(blocks, cursors, lines[m])
  {
    forall i, j | 0 <= i < |cursors| && 0 <= j < |Pending(blocks, cursors[i])|
      ensures LessEq(lines[m], Pending(blocks, cursors[i])[j])
    {
      var c := cursors[i];
      var live := Live(blocks[c.block]);
      assert SortedLines(blocks[c.block]);
      assert live[c.pos] == blocks[c.block][c.pos] && live[c.pos + j] == blocks[c.block][c.pos + j];
      if j > 0 {
        LessEqTransitive(lines[m], lines[i], live[c.pos + j]);
      }
    }
  }

  lemma BelowPendingSubset(blocks: seq<seq<string>>, before: seq<Cursor>, after: seq<Cursor>, m: nat, x: string)
    requires m < |before| && after == before[..m] + before[m + 1..]
    requires BelowPending(blocks, before, x)
    ensures BelowPending(blocks, after, x)
  {
    forall i, j | 0 <= i < |after| && 0 <= j < |Pending(blocks, after[i])|
      ensures LessEq(x, Pending(blocks, after[i])[j])
    {
      var k := if i < m then i else i + 1;
      assert after[i] == before[k];
    }
  }

  lemma BelowPendingAdvance(blocks: seq<seq<string>>, before: seq<Cursor>, m: nat, x: string)
    requires m < |before|
    requires BelowPending(blocks, before, x)
    requires before[m].block < |blocks| && before[m].pos < |Live(blocks[before[m].block])|
    ensures BelowPending(blocks, before[m := Cursor(before[m].block, before[m].pos + 1)], x)
  {
    var c := before[m];
    var c' := Cursor(c.block, c.pos + 1);
    var after := before[m := c'];
    var live := Live(blocks[c.block]);
    assert Pending(blocks, c) == live[c.pos..];
    assert Pending(blocks, c') == live[c.pos + 1..];
    forall i, j | 0 <= i < |after| && 0 <= j < |Pending(blocks, after[i])|
      ensures LessEq(x, Pending(blocks, after[i])[j])
    {
      if i == m {
        assert Pending(blocks, c')[j] == Pending(blocks, c)[j + 1];
      } else {
        assert after[i] == before[i];
      }
    }
  }

  /** The terms of the lines consumed are the output terms; when every live line was consumed,
      those are exactly the terms of the input's lines. */
  predicate TermOfSome(lines: multiset<string>, t: string) {
    exists l :: l in lines && Word(l) == t
  }

  /** Merge of sorted blocks of well-formed records: every live line has a term, the output has one
      line per distinct term, in strictly increasing order, and its terms are those of the lines
      consumed, which on a complete merge are exactly the terms of the input's live lines. */
  lemma MergedTermsOrdered(blocks: seq<seq<string>>, picked: seq<string>)
    requires BlocksSorted(blocks)
    requires forall b, i :: 0 <= b < |blocks| && 0 <= i < |blocks[b]| && blocks[b][i] != "" ==> WellFormedRecord(blocks[b][i])
    requires multiset(picked) <= AllLive(blocks) && SortedPicked(picked)
    ensures LiveHaveFields(blocks)
    ensures AllHaveFields(picked)
    ensures StrictlyIncreasing(OutputTerms(Assemble(TakenOf(picked))))
    ensures forall t :: t in OutputTerms(Assemble(TakenOf(picked))) <==> TermOfSome(multiset(picked), t)
    ensures multiset(picked) == AllLive(blocks) ==>
      forall t :: t in OutputTerms(Assemble(TakenOf(picked))) <==> TermOfSome(AllLive(blocks), t)
  {
    forall l | l in AllLive(blocks) ensures WellFormedRecord(l) && Fields(l) != [] {
      LiveLinesWellFormed(blocks, l);
    }
    forall i | 0 <= i < |picked| ensures WellFormedRecord(picked[i]) && Fields(picked[i]) != [] {
      assert picked[i] in multiset(picked);
    }
    var steps := TakenOf(picked);
    PickedTermsInOrder(picked);
    AssembleTermsIncreasing(steps);
    AssembleTermsSame(steps);
    PickedStepTerms(picked);
  }

  /** Record lines in order give their terms in order. */
  lemma PickedTermsInOrder(picked: seq<string>)
    requires forall i :: 0 <= i < |picked| ==> WellFormedRecord(picked[i]) && Fields(picked[i]) != []
    requires SortedPicked(picked)
    ensures TermsInOrder(TakenOf(picked))
  {
    var steps := TakenOf(picked);
    forall i | 0 < i < |picked| ensures LessEq(steps[i - 1].term, steps[i].term) {
      RecordOrderOrdersTerms(picked[i - 1], picked[i]);
      RecordFirstField(picked[i - 1]);
      RecordFirstField(picked[i]);
    }
  }

  /** The terms of the steps are the terms of the record lines consumed. */
  lemma PickedStepTerms(picked: seq<string>)
    requires forall i :: 0 <= i < |picked| ==> WellFormedRecord(picked[i]) && Fields(picked[i]) != []
    ensures forall t :: TakesTerm(TakenOf(picked), t) <==> TermOfSome(multiset(picked), t)
  {
    var steps := TakenOf(picked);
    forall t ensures TakesTerm(steps, t) <==> TermOfSome(multiset(picked), t) {
      if TakesTerm(steps, t) {
        var i :| 0 <= i < |steps| && steps[i].term == t;
        RecordFirstField(picked[i]);
        assert picked[i] in multiset(picked);
      }
      if TermOfSome(multiset(picked), t) {
        var l :| l in multiset(picked) && Word(l) == t;
        var i :| 0 <= i < |picked| && picked[i] == l;
        RecordFirstField(picked[i]);
        assert steps[i].term == t;
      }
    }
  }

  lemma {:induction false} LiveLinesWellFormed(blocks: seq<seq<string>>, l: string)
    requires forall b, i :: 0 <= b < |blocks| && 0 <= i < |blocks[b]| && blocks[b][i] != "" ==> WellFormedRecord(blocks[b][i])
    requires l in AllLive(blocks)
    ensures WellFormedRecord(l)
    decreases |blocks|
  {
    var n := |blocks|;
    if l in AllLive(blocks[..n - 1]) {
      LiveLinesWellFormed(blocks[..n - 1], l);
    } else {
      var live := Live(blocks[n - 1]);
      assert l in live;
      var i :| 0 <= i < |live| && live[i] == l;
      assert blocks[n - 1][i] == l;
    }
  }
}
