/**
 * The SPIMI index of `InvertedIndex` (index.py): an in-memory posting list
 * term -> {doc id -> value}, spilled to a numbered block file and cleared when
 * the sum of the stored values passes a threshold, and the merge of all block
 * files into `final_index.txt`.
 *
 * Files are modelled as the lines they hold: the `disk` field maps a path to
 * its lines. Both dict levels keep Python's insertion order (module
 * OrderedDict), because the order of the doc ids shows up in the records.
 */
module Index {
  import opened Wrappers
  import opened Strings
  import opened OrderedDict
  import opened BlockMerge

  /** The postings of one term: doc id -> value, in insertion order. */
  type DocPostings = Dict<string, int>

  /** `posting_list`: term -> postings, in insertion order. */
  type PostingList = Dict<string, DocPostings>

  /** Both levels are proper dicts: no term and no doc id of a term twice. */
  predicate WellFormedPostings(pl: PostingList) {
    DistinctKeys(pl) && forall i :: 0 <= i < |pl| ==> DistinctKeys(pl[i].value)
  }

  /** `posting_list[term][doc_id]`, or None when either key is missing. */
  function Lookup(pl: PostingList, term: string, doc: string): Option<int> {
    match Get(pl, term)
    case None => None
    case Some(docs) => Get(docs, doc)
  }

  // ---------------------------------------------------------------------------
  // add_term without a spill
  // ---------------------------------------------------------------------------

  /** The store at the end of `add_term`: a new term gets `{doc_id: value}`, a known one gets `doc_id` set to `value`. */
  function StorePosting(pl: PostingList, term: string, doc: string, value: int): PostingList {
    match Get(pl, term)
    case None => Put(pl, term, [Entry(doc, value)])
    case Some(docs) => Put(pl, term, Put(docs, doc, value))
  }

  /** After the store, the entry holds the new value, whatever it held before (an overwrite, not a sum),
      and every other (term, doc id) entry is as it was. */
  lemma StorePostingLookup(pl: PostingList, term: string, doc: string, value: int)
    ensures Lookup(StorePosting(pl, term, doc, value), term, doc) == Some(value)
    ensures forall t, d :: (t != term || d != doc) ==>
              Lookup(StorePosting(pl, term, doc, value), t, d) == Lookup(pl, t, d)
  {
    var r := StorePosting(pl, term, doc, value);
    forall t, d | t != term || d != doc
      ensures Lookup(r, t, d) == Lookup(pl, t, d)
    {
      if t == term && Get(pl, term).None? {
        assert Get(r, term) == Some([Entry(doc, value)]);
        assert Get([Entry(doc, value)], d) == None;
      }
    }
  }

  /** A known term keeps its place among the terms, a new one comes last. */
  lemma StorePostingKeys(pl: PostingList, term: string, doc: string, value: int)
    ensures Keys(StorePosting(pl, term, doc, value)) == if term in Keys(pl) then Keys(pl) else Keys(pl) + [term]
  {
    match Get(pl, term)
    case None => PutKeys(pl, term, [Entry(doc, value)]);
    case Some(docs) => PutKeys(pl, term, Put(docs, doc, value));
  }

  /** The store keeps both levels proper dicts. */
  lemma StorePostingWellFormed(pl: PostingList, term: string, doc: string, value: int)
    requires WellFormedPostings(pl)
    ensures WellFormedPostings(StorePosting(pl, term, doc, value))
  {
    var r := StorePosting(pl, term, doc, value);
    var inner := match Get(pl, term) case None => [Entry(doc, value)] case Some(docs) => Put(docs, doc, value);
    assert r == Put(pl, term, inner);
    PutDistinct(pl, term, inner);
    PutKeys(pl, term, inner);
    if docs :| Get(pl, term) == Some(docs) {
      var i := GetIndex(pl, term);
      PutDistinct(docs, doc, value);
    }
    forall i | 0 <= i < |r| ensures DistinctKeys(r[i].value) {
      assert Keys(r)[i] == r[i].key;
      if r[i].key == term {
        GetAt(r, i);
      } else {
        GetAt(r, i);
        assert Get(pl, r[i].key) == Some(r[i].value);
        var j := GetIndex(pl, r[i].key);
      }
    }
  }

  // ---------------------------------------------------------------------------
  // The spill threshold: the sum of all stored values
  // ---------------------------------------------------------------------------

  /** The sum of the values of one term's postings. */
  function DocTotal(docs: DocPostings): int
    decreases |docs|
  {
    if docs == [] then 0 else docs[0].value + DocTotal(docs[1..])
  }

  /** `sum([v for data in posting_list.values() for v in data.values()])`. */
  function TotalValue(pl: PostingList): int
    decreases |pl|
  {
    if pl == [] then 0 else DocTotal(pl[0].value) + TotalValue(pl[1..])
  }

  /** Setting a doc id's value replaces its old value in the sum (0 when it was absent). */
  lemma {:induction false} PutDocTotal(docs: DocPostings, doc: string, value: int)
    ensures DocTotal(Put(docs, doc, value)) == DocTotal(docs) - Get(docs, doc).GetOr(0) + value
    decreases |docs|
  {
    if docs != [] && docs[0].key != doc {
      PutDocTotal(docs[1..], doc, value);
      assert Put(docs, doc, value)[1..] == Put(docs[1..], doc, value);
    } else if docs != [] {
      assert Put(docs, doc, value)[1..] == docs[1..];
    }
  }

  /** Replacing a term's postings replaces their sum in the total. */
  lemma {:induction false} PutTotal(pl: PostingList, term: string, docs: DocPostings)
    ensures TotalValue(Put(pl, term, docs)) == TotalValue(pl) - DocTotal(Get(pl, term).GetOr([])) + DocTotal(docs)
    decreases |pl|
  {
    if pl != [] && pl[0].key != term {
      PutTotal(pl[1..], term, docs);
      assert Put(pl, term, docs)[1..] == Put(pl[1..], term, docs);
    } else if pl != [] {
      assert Put(pl, term, docs)[1..] == pl[1..];
    }
  }

  /** `add_term` without a spill changes the total by the new value minus the value it overwrites. */
  lemma StorePostingTotal(pl: PostingList, term: string, doc: string, value: int)
    ensures TotalValue(StorePosting(pl, term, doc, value)) == TotalValue(pl) - Lookup(pl, term, doc).GetOr(0) + value
  {
    match Get(pl, term)
    case None =>
      PutTotal(pl, term, [Entry(doc, value)]);
      assert DocTotal([Entry(doc, value)]) == value + DocTotal([]);
    case Some(docs) =>
      PutTotal(pl, term, Put(docs, doc, value));
      PutDocTotal(docs, doc, value);
  }

  /** `self._posting_threshold and sum(...) > self._posting_threshold`: None and 0 switch the spill off. */
  predicate SpillDue(threshold: Option<int>, pl: PostingList) {
    threshold.Some? && threshold.value != 0 && TotalValue(pl) > threshold.value
  }

  // ---------------------------------------------------------------------------
  // The block file written by write_to_disk
  // ---------------------------------------------------------------------------

  /** `str(el[0]) + ':' + str(el[1])` where `el` is a doc id: its first two characters; a shorter id raises IndexError. */
  function DocField(doc: string): Option<string> {
    if |doc| < 2 then None else Some([doc[0]] + ":" + [doc[1]])
  }

  /** The fields of all doc ids, or None when one of them is too short. */
  function DocFields(docs: seq<string>): Option<seq<string>>
    decreases |docs|
  {
    if docs == [] then Some([])
    else match DocField(docs[0])
      case None => None
      case Some(f) =>
        match DocFields(docs[1..])
        case None => None
        case Some(rest) => Some([f] + rest)
  }

  /** The fields exist exactly when every doc id has two characters, and then field i is `id[0]:id[1]` of doc id i. */
  lemma {:induction false} DocFieldsShape(docs: seq<string>)
    ensures DocFields(docs).Some? <==> forall i :: 0 <= i < |docs| ==> |docs[i]| >= 2
    ensures DocFields(docs).Some? ==>
      |DocFields(docs).value| == |docs| &&
      forall i :: 0 <= i < |docs| ==> DocFields(docs).value[i] == [docs[i][0], ':', docs[i][1]]
    decreases |docs|
  {
    if docs != [] {
      DocFieldsShape(docs[1..]);
      if DocFields(docs).Some? {
        var fs := DocFields(docs).value;
        forall i | 0 <= i < |docs| ensures fs[i] == [docs[i][0], ':', docs[i][1]] {
          if i > 0 {
            assert docs[i] == docs[1..][i - 1];
          }
        }
      } else if |docs[0]| >= 2 {
        assert !forall i :: 0 <= i < |docs[1..]| ==> |docs[1..][i]| >= 2;
      }
    }
  }

  /** One record: `term` and the comma-joined doc fields, or None when the list comprehension raises. */
  function RecordOf(term: string, docs: DocPostings): Option<string> {
    match DocFields(Keys(docs))
    case None => None
    case Some(fs) => Some(term + " " + Join(fs, ","))
  }

  /** What a block holds after the write loop: the records written, and whether every record could be written. */
  datatype Rendered = Rendered(lines: seq<string>, complete: bool)

  /** The record of `term` in `pl`. */
  function TermRecord(pl: PostingList, term: string): Option<string> {
    RecordOf(term, Get(pl, term).GetOr([]))
  }

  /** The comma-joined doc fields of `term`'s postings (empty when a doc id is too short). */
  function PostingsText(pl: PostingList, term: string): string {
    Join(DocFields(Keys(Get(pl, term).GetOr([]))).GetOr([]), ",")
  }

  /** A record is its term, a space and the doc fields. */
  lemma TermRecordShape(pl: PostingList, term: string)
    requires TermRecord(pl, term).Some?
    ensures TermRecord(pl, term).value == term + " " + PostingsText(pl, term)
  {
  }

  /** The record of each key, in the order of the keys. */
  function RecordsOf(pl: PostingList, keys: seq<string>): (rs: seq<Option<string>>)
    ensures |rs| == |keys|
  {
    seq(|keys|, i requires 0 <= i < |keys| => TermRecord(pl, keys[i]))
  }

  /** The lines the write loop leaves after the first `n` records: it stops at the first record that raises. */
  function RenderLines(records: seq<Option<string>>, n: nat): Rendered
    requires n <= |records|
  {
    if n == 0 then Rendered([], true)
    else
      var prev := RenderLines(records, n - 1);
      if !prev.complete then prev
      else match records[n - 1]
        case None => Rendered(prev.lines, false)
        case Some(rec) => Rendered(prev.lines + [rec], true)
  }

  /**
   * The written lines are the records of a prefix; the write is complete exactly when that
   * prefix is all `n` records, and otherwise the record after it is the one that raised.
   */
  lemma {:induction false} RenderLinesShape(records: seq<Option<string>>, n: nat)
    requires n <= |records|
    ensures var r := RenderLines(records, n);
      |r.lines| <= n &&
      (forall i :: 0 <= i < |r.lines| ==> records[i] == Some(r.lines[i])) &&
      (r.complete <==> |r.lines| == n) &&
      (!r.complete ==> records[|r.lines|].None?)
  {
    if n > 0 {
      RenderLinesShape(records, n - 1);
    }
  }

  /** Once a record raises, the records after it add nothing. */
  lemma {:induction false} RenderLinesStops(records: seq<Option<string>>, j: nat, n: nat)
    requires j <= n <= |records| && !RenderLines(records, j).complete
    ensures RenderLines(records, n) == RenderLines(records, j)
  {
    if j < n {
      RenderLinesStops(records, j, n - 1);
    }
  }

  /** One turn of the write loop: the next record is appended, or the write stops for good. */
  lemma RenderStep(records: seq<Option<string>>, i: nat)
    requires i < |records| && RenderLines(records, i).complete
    ensures records[i].Some? ==> RenderLines(records, i + 1) == Rendered(RenderLines(records, i).lines + [records[i].value], true)
    ensures records[i].None? ==> RenderLines(records, |records|) == Rendered(RenderLines(records, i).lines, false)
  {
    if records[i].None? {
      RenderLinesStops(records, i + 1, |records|);
    }
  }

  /** The terms of `pl` in the order `sorted` gives them. */
  function SortedTerms(pl: PostingList): seq<string> {
    SortStrings(Keys(pl))
  }

  /** The block `write_to_disk` writes: the records of the terms in sorted order. */
  function BlockContent(pl: PostingList): Rendered {
    var records := RecordsOf(pl, SortedTerms(pl));
    RenderLines(records, |records|)
  }

  /** `f"{folder}/block_{self.block_counter}.txt"`. */
  function BlockPath(folder: string, n: nat): string {
    folder + "/block_" + Decimal(n) + ".txt"
  }

  /** The merge output, written in the working directory. */
  const FinalIndexPath := "final_index.txt"

  /** Different counters give different block paths. */
  lemma BlockPathInjective(folder: string, m: nat, n: nat)
    requires BlockPath(folder, m) == BlockPath(folder, n)
    ensures m == n
  {
    var p := folder + "/block_";
    var a, b := BlockPath(folder, m), BlockPath(folder, n);
    assert a == p + Decimal(m) + ".txt" && b == p + Decimal(n) + ".txt";
    assert |Decimal(m)| == |Decimal(n)|;
    assert a[|p|..|p| + |Decimal(m)|] == Decimal(m);
    assert b[|p|..|p| + |Decimal(n)|] == Decimal(n);
    DecimalInjective(m, n);
  }

  /** A block path never names the merge output, so removing the blocks keeps it. */
  lemma BlockPathNotFinal(folder: string, n: nat)
    ensures BlockPath(folder, n) != FinalIndexPath
  {
    var a := BlockPath(folder, n);
    assert a[|folder|] == '/';
    assert forall i :: 0 <= i < |FinalIndexPath| ==> FinalIndexPath[i] != '/';
  }

  // ---------------------------------------------------------------------------
  // What a complete block looks like
  // ---------------------------------------------------------------------------

  predicate Distinct<T(==)>(s: seq<T>) {
    forall i, j :: 0 <= i < j < |s| ==> s[i] != s[j]
  }

  lemma {:induction false} DistinctCount<T>(s: seq<T>, x: T)
    requires Distinct(s)
    ensures multiset(s)[x] <= 1
    decreases |s|
  {
    if s != [] {
      assert s == [s[0]] + s[1..];
      DistinctCount(s[1..], x);
      if x == s[0] {
        assert x !in s[1..];
      }
    }
  }

  /** Sorting a list of distinct strings orders them strictly. */
  lemma SortedDistinct(s: seq<string>)
    requires Distinct(s)
    ensures Distinct(SortStrings(s))
    ensures StrictlyIncreasing(SortStrings(s))
  {
    var r := SortStrings(s);
    SortStringsSorts(s);
    forall i, j | 0 <= i < j < |r| ensures r[i] != r[j] {
      if r[i] == r[j] {
        RepeatCount(r, i, j);
        DistinctCount(s, r[i]);
      }
    }
    forall i, j | 0 <= i < j < |r| ensures Less(r[i], r[j]) {
      assert LessEq(r[i], r[j]);
    }
  }

  /** The records of strictly increasing well-formed terms are strictly increasing lines, each led by its term. */
  lemma RecordsIncreasing(keys: seq<string>, pl: PostingList)
    requires StrictlyIncreasing(keys)
    requires forall i :: 0 <= i < |keys| ==> WellFormedTerm(keys[i])
    ensures var lines := RenderLines(RecordsOf(pl, keys), |keys|).lines;
      |lines| <= |keys| && StrictlyIncreasing(lines) &&
      forall i :: 0 <= i < |lines| ==> WellFormedRecord(lines[i]) && FirstField(lines[i]) == keys[i]
  {
    var lines := RenderLines(RecordsOf(pl, keys), |keys|).lines;
    RenderLinesShape(RecordsOf(pl, keys), |keys|);
    forall i | 0 <= i < |lines|
      ensures lines[i] == keys[i] + " " + PostingsText(pl, keys[i])
    {
      assert RecordsOf(pl, keys)[i] == Some(lines[i]);
      TermRecordShape(pl, keys[i]);
    }
    forall i | 0 <= i < |lines|
      ensures WellFormedRecord(lines[i]) && Fields(lines[i]) != [] && FirstField(lines[i]) == keys[i]
    {
      RecordStartsWithTerm(keys[i], PostingsText(pl, keys[i]));
    }
    forall i, j | 0 <= i < j < |lines| ensures Less(lines[i], lines[j]) {
      LessExtendsToRecords(keys[i], keys[j], PostingsText(pl, keys[i]), PostingsText(pl, keys[j]));
    }
  }

  /**
   * `write_to_disk` of a proper posting list whose terms are well formed writes its records in
   * strictly increasing order, each starting with its term; when no doc id is too short, it writes
   * exactly one record per term.
   */
  lemma BlockContentOrdered(pl: PostingList)
    requires WellFormedPostings(pl)
    requires forall i :: 0 <= i < |pl| ==> WellFormedTerm(pl[i].key)
    ensures var b := BlockContent(pl);
      StrictlyIncreasing(b.lines) && SortedLines(b.lines) &&
      (forall i :: 0 <= i < |b.lines| ==> WellFormedRecord(b.lines[i])) &&
      (b.complete ==> |b.lines| == |pl| && multiset(LineFirstFields(b.lines)) == multiset(Keys(pl)))
  {
    var keys := SortedTerms(pl);
    SortedTermsShape(pl);
    RecordsIncreasing(keys, pl);
    var b := BlockContent(pl);
    RenderLinesShape(RecordsOf(pl, keys), |keys|);
    if b.complete {
      assert LineFirstFields(b.lines) == keys;
    }
  }

  /** The sorted terms of a proper posting list are strictly increasing and are its terms. */
  lemma SortedTermsShape(pl: PostingList)
    requires WellFormedPostings(pl)
    requires forall i :: 0 <= i < |pl| ==> WellFormedTerm(pl[i].key)
    ensures var keys := SortedTerms(pl);
      StrictlyIncreasing(keys) && multiset(keys) == multiset(Keys(pl)) && |keys| == |pl| &&
      forall i :: 0 <= i < |keys| ==> WellFormedTerm(keys[i])
  {
    var keys := SortedTerms(pl);
    assert Distinct(Keys(pl));
    SortedDistinct(Keys(pl));
    SortStringsSorts(Keys(pl));
    assert |keys| == |multiset(keys)| == |multiset(Keys(pl))| == |pl|;
    PermutedTermsWellFormed(pl, keys);
  }

  /** A permutation of the terms of `pl` holds only well-formed terms when `pl` does. */
  lemma PermutedTermsWellFormed(pl: PostingList, keys: seq<string>)
    requires forall i :: 0 <= i < |pl| ==> WellFormedTerm(pl[i].key)
    requires multiset(keys) == multiset(Keys(pl))
    ensures forall i :: 0 <= i < |keys| ==> WellFormedTerm(keys[i])
  {
    forall i | 0 <= i < |keys| ensures WellFormedTerm(keys[i]) {
      assert keys[i] in multiset(Keys(pl));
      var j :| 0 <= j < |Keys(pl)| && Keys(pl)[j] == keys[i];
    }
  }

  /** The first field of each line. */
  function LineFirstFields(lines: seq<string>): (ts: seq<string>)
    ensures |ts| == |lines|
  {
    seq(|lines|, i requires 0 <= i < |lines| => if Fields(lines[i]) == [] then "" else FirstField(lines[i]))
  }

  // ---------------------------------------------------------------------------
  // Removing the block files after the merge
  // ---------------------------------------------------------------------------

  /** The first of `names` written as a gzip member, if any: where reading the first lines as text stops. */
  function FirstGzipped(names: seq<string>, gzipped: set<string>): (g: Option<string>)
    ensures g.None? <==> forall i :: 0 <= i < |names| ==> names[i] !in gzipped
    ensures g.Some? ==> g.value in names && g.value in gzipped
    ensures names != [] && names[0] in gzipped ==> g == Some(names[0])
  {
    if names == [] then None
    else if names[0] in gzipped then Some(names[0])
    else FirstGzipped(names[1..], gzipped)
  }

  /** The first of `names` that is not on disk, if any: where opening the block files stops. */
  function FirstMissing(names: seq<string>, disk: map<string, seq<string>>): (m: Option<string>)
    ensures m.None? <==> forall i :: 0 <= i < |names| ==> names[i] in disk
    ensures m.Some? ==> m.value in names && m.value !in disk
    decreases |names|
  {
    if names == [] then None
    else if names[0] !in disk then Some(names[0])
    else FirstMissing(names[1..], disk)
  }

  /** `[os.remove(f) for f in self.filenames]`: the disk afterwards, and the first name that was already gone. */
  function RemoveFiles(disk: map<string, seq<string>>, names: seq<string>): (r: (map<string, seq<string>>, Option<string>))
    ensures r.1.None? ==> r.0 == disk - set i | 0 <= i < |names| :: names[i]
    ensures r.0.Keys <= disk.Keys
    ensures forall p :: p in r.0 ==> r.0[p] == disk[p]
    decreases |names|
  {
    if names == [] then (disk, None)
    else if names[0] !in disk then (disk, Some(names[0]))
    else
      var rest := RemoveFiles(disk - {names[0]}, names[1..]);
      assert rest.1.None? ==> rest.0 == disk - set i | 0 <= i < |names| :: names[i] by {
        if rest.1.None? {
          assert (set i | 0 <= i < |names| :: names[i]) == {names[0]} + set i | 0 <= i < |names[1..]| :: names[1..][i];
        }
      }
      rest
  }

  /** The contents of the named files, in order. */
  function BlocksOf(names: seq<string>, disk: map<string, seq<string>>): (blocks: seq<seq<string>>)
    requires forall i :: 0 <= i < |names| ==> names[i] in disk
    ensures |blocks| == |names| && forall i :: 0 <= i < |names| ==> blocks[i] == disk[names[i]]
  {
    seq(|names|, i requires 0 <= i < |names| => disk[names[i]])
  }

  /** A block file as `write_to_disk` leaves it: records in strictly increasing order, each led by a well-formed term. */
  predicate WellFormedBlock(lines: seq<string>) {
    SortedLines(lines) && forall j :: 0 <= j < |lines| ==> WellFormedRecord(lines[j])
  }

  /** Every named file still on disk is a well-formed block. */
  predicate FilesWellFormed(names: seq<string>, disk: map<string, seq<string>>) {
    forall i :: 0 <= i < |names| && names[i] in disk ==> WellFormedBlock(disk[names[i]])
  }

  /** Writing a well-formed block and recording its name keeps every recorded block well formed. */
  lemma WriteKeepsFilesWellFormed(names: seq<string>, disk: map<string, seq<string>>, path: string, lines: seq<string>)
    requires FilesWellFormed(names, disk) && WellFormedBlock(lines)
    ensures FilesWellFormed(names + [path], disk[path := lines])
  {
    var names', disk' := names + [path], disk[path := lines];
    forall i | 0 <= i < |names'| && names'[i] in disk' ensures WellFormedBlock(disk'[names'[i]]) {
      if names'[i] != path {
        assert names'[i] == names[i];
      }
    }
  }

  /** `write_to_disk` of a proper posting list with well-formed terms keeps every recorded block well formed. */
  lemma BlockWriteKeepsFilesWellFormed(pl: PostingList, names: seq<string>, disk: map<string, seq<string>>, path: string)
    requires WellFormedPostings(pl)
    requires forall i :: 0 <= i < |pl| ==> WellFormedTerm(pl[i].key)
    requires FilesWellFormed(names, disk)
    ensures FilesWellFormed(names + [path], disk[path := BlockContent(pl).lines])
  {
    BlockContentOrdered(pl);
    WriteKeepsFilesWellFormed(names, disk, path, BlockContent(pl).lines);
  }

  /** Storing a posting under a well-formed term keeps every term well formed. */
  lemma StorePostingTermsWellFormed(pl: PostingList, term: string, doc: string, value: int)
    requires forall i :: 0 <= i < |pl| ==> WellFormedTerm(pl[i].key)
    requires WellFormedTerm(term)
    ensures var r := StorePosting(pl, term, doc, value);
      forall i :: 0 <= i < |r| ==> WellFormedTerm(r[i].key)
  {
    StorePostingKeys(pl, term, doc, value);
    var r := StorePosting(pl, term, doc, value);
    forall i | 0 <= i < |r| ensures WellFormedTerm(r[i].key) {
      assert Keys(r)[i] == r[i].key;
      if i < |pl| {
        assert Keys(pl)[i] == pl[i].key;
      }
    }
  }

  /**
   * Merging well-formed blocks: every live line has a term, and whatever the merge consumed, in
   * the order it consumed it, becomes an output whose terms strictly increase and are exactly the
   * terms of the consumed lines; once every live line is consumed, exactly the terms of the blocks.
   */
  lemma MergeOfWellFormedFiles(names: seq<string>, disk: map<string, seq<string>>, picked: seq<string>)
    requires FilesWellFormed(names, disk)
    requires forall i :: 0 <= i < |names| ==> names[i] in disk
    requires multiset(picked) <= AllLive(BlocksOf(names, disk))
    requires BlocksSorted(BlocksOf(names, disk)) ==> SortedPicked(picked)
    ensures LiveHaveFields(BlocksOf(names, disk))
    ensures AllHaveFields(picked)
    ensures StrictlyIncreasing(OutputTerms(Assemble(TakenOf(picked))))
    ensures forall t :: t in OutputTerms(Assemble(TakenOf(picked))) <==> TermOfSome(multiset(picked), t)
    ensures multiset(picked) == AllLive(BlocksOf(names, disk)) ==>
      forall t :: t in OutputTerms(Assemble(TakenOf(picked))) <==> TermOfSome(AllLive(BlocksOf(names, disk)), t)
  {
    var blocks := BlocksOf(names, disk);
    assert forall b :: 0 <= b < |blocks| ==> WellFormedBlock(blocks[b]);
    MergedTermsOrdered(blocks, picked);
  }

  /** Why `add_term` raised. */
  datatype AddError =
    | MissingOutputFolder   // ValueError: the spill needs `index_output_folder`
    | DocIdTooShort         // IndexError while rendering a record of the block

  /** How `merge_blocks` ended. */
  datatype MergeOutcome =
    | Merged                      // returned True
    | BlockMissing(path: string)  // a block file could not be opened
    | LineWithoutTerm             // the smallest current line had no field
    | Undecodable(path: string)   // UnicodeDecodeError at the first readline of a gzip block read as text
    | RemoveMissing(path: string) // a block file was already removed (listed twice)

  // ---------------------------------------------------------------------------
  // The index object
  // ---------------------------------------------------------------------------

  class InvertedIndex {
    /** `posting_list`: term -> {doc id -> value}. */
    var postingList: PostingList
    /** `_posting_threshold`: None or 0 switches the spill off. */
    const postingThreshold: Option<int>
    /** `token_threshold`, 50000 when not given. */
    const tokenThreshold: int
    /** `block_counter`: the number of the next block file. */
    var blockCounter: nat
    /** `filenames`: every block path written, in order. */
    var filenames: seq<string>
    /** The files the index writes and reads: path -> lines. */
    var disk: map<string, seq<string>>
    /** The paths `write_to_disk` wrote through `gzip.GzipFile`: each holds a gzip member (`Encoding.IsGzipMember`). */
    var gzipped: set<string>

    ghost predicate Valid()
      reads this
    {
      WellFormedPostings(postingList)
    }

    /**
     * Every term in the posting list can lead a record: non-empty, with no whitespace and nothing
     * below a space. The claims about the merged output assume it; a token with a blank inside
     * (a term such as "a b" that the tokenizer's filter leaves unchanged) does not satisfy it.
     */
    ghost predicate TermsWellFormed()
      reads this
    {
      forall i :: 0 <= i < |postingList| ==> WellFormedTerm(postingList[i].key)
    }

    /** Every recorded block file was written compressed. */
    ghost predicate BlocksGzipped()
      reads this
    {
      forall i :: 0 <= i < |filenames| ==> filenames[i] in gzipped
    }

    /** Every recorded block file still on disk holds sorted, well-formed records. */
    ghost predicate BlockFilesWellFormed()
      reads this
    {
      FilesWellFormed(filenames, disk)
    }

    /** `InvertedIndex(posting_threshold, token_threshold=...)` over the files already on `disk`. */
    constructor (postingThreshold: Option<int>, tokenThreshold: Option<int>, disk: map<string, seq<string>>)
      ensures Valid() && TermsWellFormed() && BlockFilesWellFormed() && BlocksGzipped()
      ensures this.postingList == [] && this.blockCounter == 0 && this.filenames == [] && this.disk == disk
      ensures this.gzipped == {}
      ensures this.postingThreshold == postingThreshold
      ensures this.tokenThreshold == if tokenThreshold.None? || tokenThreshold.value == 0 then 50000 else tokenThreshold.value
    {
      this.postingList := [];
      this.postingThreshold := postingThreshold;
      this.tokenThreshold := if tokenThreshold.None? || tokenThreshold.value == 0 then 50000 else tokenThreshold.value;
      this.blockCounter := 0;
      this.filenames := [];
      this.disk := disk;
      this.gzipped := {};
    }

    /** `clean_index`: an empty posting list; the counter and the file names stay. */
    method CleanIndex()
      modifies this`postingList
      ensures postingList == [] && Valid() && TermsWellFormed()
    {
      postingList := [];
    }

    /**
     * `write_to_disk(folder)`: opens `folder/block_<counter>.txt` (emptying it), records its name,
     * writes the records of the terms in sorted order and bumps the counter. A doc id shorter
     * than two characters stops the write with an IndexError: the records before it stay in the
     * file, the name stays recorded and the counter is not bumped.
     */
    method WriteToDisk(folder: string) returns (complete: bool)
      modifies this`disk, this`filenames, this`blockCounter, this`gzipped
      ensures var path := BlockPath(folder, old(blockCounter));
        filenames == old(filenames) + [path] &&
        disk == old(disk)[path := BlockContent(postingList).lines] &&
        gzipped == old(gzipped) + {path}
      ensures old(BlocksGzipped()) ==> BlocksGzipped()
      ensures complete == BlockContent(postingList).complete
      ensures blockCounter == if complete then old(blockCounter) + 1 else old(blockCounter)
      ensures old(BlockFilesWellFormed()) && Valid() && TermsWellFormed() ==> BlockFilesWellFormed()
    {
      var path := BlockPath(folder, blockCounter);
      gzipped := gzipped + {path};
      filenames := filenames + [path];
      complete := WriteRecords(path, RecordsOf(postingList, SortedTerms(postingList)));
      if old(BlockFilesWellFormed()) && Valid() && TermsWellFormed() {
        BlockWriteKeepsFilesWellFormed(postingList, old(filenames), old(disk), path);
      }
      if complete {
        blockCounter := blockCounter + 1;
      }
    }

    /** The `with open(path, 'w')` block of `write_to_disk`: the file is emptied, then the records are written one by one
        until one of them raises (None). */
    method WriteRecords(path: string, records: seq<Option<string>>) returns (complete: bool)
      modifies this`disk
      ensures disk == old(disk)[path := RenderLines(records, |records|).lines]
      ensures complete == RenderLines(records, |records|).complete
    {
      disk := disk[path := []];
      complete := true;
      var i := 0;
      while i < |records|
        invariant 0 <= i <= |records|
        invariant RenderLines(records, i).complete
        invariant disk == old(disk)[path := RenderLines(records, i).lines]
      {
        RenderStep(records, i);
        if records[i].None? {
          complete := false;
          break;
        }
        disk := disk[path := disk[path] + [records[i].value]];
        i := i + 1;
      }
    }

    /**
     * `add_term(term, doc_id, value, index_output_folder=...)`: when the spill is due, the posting
     * list goes to a new block and is cleared first (no folder: ValueError before any change);
     * then `posting_list[term][doc_id] = value`.
     */
    method AddTerm(term: string, docId: string, value: int, outputFolder: Option<string>) returns (err: Option<AddError>)
      requires Valid()
      modifies this
      ensures Valid()
      ensures !SpillDue(postingThreshold, old(postingList)) ==>
        err == None && postingList == StorePosting(old(postingList), term, docId, value) &&
        blockCounter == old(blockCounter) && filenames == old(filenames) && disk == old(disk) &&
        gzipped == old(gzipped)
      ensures SpillDue(postingThreshold, old(postingList)) && outputFolder.None? ==>
        err == Some(MissingOutputFolder) && postingList == old(postingList) &&
        blockCounter == old(blockCounter) && filenames == old(filenames) && disk == old(disk) &&
        gzipped == old(gzipped)
      ensures SpillDue(postingThreshold, old(postingList)) && outputFolder.Some? ==>
        var path := BlockPath(outputFolder.value, old(blockCounter));
        var block := BlockContent(old(postingList));
        filenames == old(filenames) + [path] && disk == old(disk)[path := block.lines] &&
        gzipped == old(gzipped) + {path} &&
        (block.complete ==> err == None && blockCounter == old(blockCounter) + 1 &&
                            postingList == [Entry(term, [Entry(docId, value)])]) &&
        (!block.complete ==> err == Some(DocIdTooShort) && blockCounter == old(blockCounter) &&
                             postingList == old(postingList))
      ensures old(BlockFilesWellFormed()) && old(TermsWellFormed()) && WellFormedTerm(term) ==>
        BlockFilesWellFormed() && TermsWellFormed()
      ensures old(BlocksGzipped()) ==> BlocksGzipped()
    {
      if postingThreshold.Some? && postingThreshold.value != 0 && TotalValue(postingList) > postingThreshold.value {
        if outputFolder.None? {
          return Some(MissingOutputFolder);
        }
        var complete := WriteToDisk(outputFolder.value);
        if !complete {
          return Some(DocIdTooShort);
        }
        CleanIndex();
      }
      StorePostingWellFormed(postingList, term, docId, value);
      if TermsWellFormed() && WellFormedTerm(term) {
        StorePostingTermsWellFormed(postingList, term, docId, value);
      }
      postingList := StorePosting(postingList, term, docId, value);
      err := None;
    }

    /**
     * `merge_blocks` with each block read back as it was written (as `gzip.open(path, 'rt')`
     * would): opens every block file, merges them into `final_index.txt` and removes the block
     * files. `picked` is the sequence of block lines the merge consumed. The `folder` argument of
     * the source is unused there and is left out. `MergeBlocksAsWritten` is the text-mode read.
     */
    method MergeBlocks() returns (outcome: MergeOutcome, ghost picked: seq<string>)
      modifies this`disk
      ensures !outcome.Undecodable?
      ensures AllHaveFields(picked)
      ensures FirstMissing(filenames, old(disk)).Some? ==>
        outcome == BlockMissing(FirstMissing(filenames, old(disk)).value) && disk == old(disk)
      ensures FirstMissing(filenames, old(disk)).None? ==>
        var blocks := BlocksOf(filenames, old(disk));
        var written := old(disk)[FinalIndexPath := OutputFileLines(Assemble(TakenOf(picked)))];
        multiset(picked) <= AllLive(blocks) &&
        (BlocksSorted(blocks) ==> SortedPicked(picked)) &&
        (outcome == LineWithoutTerm <==> "" in OpenedLines(blocks) || !LiveHaveFields(blocks)) &&
        ("" in OpenedLines(blocks) ==> picked == []) &&
        (outcome == LineWithoutTerm ==> disk == written) &&
        (outcome != LineWithoutTerm ==> multiset(picked) == AllLive(blocks)) &&
        (outcome == Merged ==> RemoveFiles(written, filenames) == (disk, None)) &&
        (outcome.RemoveMissing? ==> RemoveFiles(written, filenames) == (disk, Some(outcome.path)))
      ensures old(BlockFilesWellFormed()) ==>
        var out := Assemble(TakenOf(picked));
        StrictlyIncreasing(OutputTerms(out)) &&
        forall t :: t in OutputTerms(out) <==> TermOfSome(multiset(picked), t)
      ensures old(BlockFilesWellFormed()) && FirstMissing(filenames, old(disk)).None? ==>
        var blocks := BlocksOf(filenames, old(disk));
        (outcome == LineWithoutTerm <==> "" in OpenedLines(blocks)) &&
        (outcome != LineWithoutTerm ==>
          forall t :: t in OutputTerms(Assemble(TakenOf(picked))) <==> TermOfSome(AllLive(blocks), t))
    {
      var missing := FindMissing();
      if missing.Some? {
        return BlockMissing(missing.value), [];
      }
      var blocks := BlocksOf(filenames, disk);
      var ok;
      ok, picked := WriteFinalIndex(blocks);
      if old(BlockFilesWellFormed()) {
        MergeOfWellFormedFiles(filenames, old(disk), picked);
      }
      if !ok {
        return LineWithoutTerm, picked;
      }
      missing := RemoveBlockFiles();
      outcome := if missing.None? then Merged else RemoveMissing(missing.value);
    }

    /**
     * `merge_blocks` as written: the blocks are opened with `open(path, 'r', encoding='utf-8')`,
     * so the first `readline()` of a block written through `GzipFile` raises UnicodeDecodeError
     * at the second header byte (`Encoding.GzipMemberUndecodable`), before `final_index.txt` is
     * opened. Every block `write_to_disk` recorded is such a block, so once one has been written
     * the merge can only fail. Blocks held as plain text are merged as in `MergeBlocks`.
     */
    method MergeBlocksAsWritten() returns (outcome: MergeOutcome, ghost picked: seq<string>)
      modifies this`disk
      ensures AllHaveFields(picked)
      ensures FirstMissing(filenames, old(disk)).Some? ==>
        outcome == BlockMissing(FirstMissing(filenames, old(disk)).value) && disk == old(disk)
      ensures FirstMissing(filenames, old(disk)).None? && FirstGzipped(filenames, gzipped).Some? ==>
        outcome == Undecodable(FirstGzipped(filenames, gzipped).value) && disk == old(disk) && picked == []
      ensures FirstMissing(filenames, old(disk)).None? && FirstGzipped(filenames, gzipped).None? ==>
        var blocks := BlocksOf(filenames, old(disk));
        var written := old(disk)[FinalIndexPath := OutputFileLines(Assemble(TakenOf(picked)))];
        !outcome.Undecodable? &&
        (outcome == LineWithoutTerm <==> "" in OpenedLines(blocks) || !LiveHaveFields(blocks)) &&
        (outcome == LineWithoutTerm ==> disk == written) &&
        (outcome != LineWithoutTerm ==> multiset(picked) == AllLive(blocks)) &&
        (outcome == Merged ==> RemoveFiles(written, filenames) == (disk, None))
      ensures BlocksGzipped() && filenames != [] && FirstMissing(filenames, old(disk)).None? ==>
        outcome == Undecodable(filenames[0]) && disk == old(disk)
    {
      var missing := FindMissing();
      if missing.Some? {
        return BlockMissing(missing.value), [];
      }
      var undecodable := FindGzipped();
      if undecodable.Some? {
        return Undecodable(undecodable.value), [];
      }
      outcome, picked := MergeBlocks();
    }

    /** The list comprehension reading the first lines as text: the first gzip block raises. */
    method FindGzipped() returns (found: Option<string>)
      ensures found == FirstGzipped(filenames, gzipped)
    {
      var i := 0;
      while i < |filenames|
        invariant 0 <= i <= |filenames|
        invariant FirstGzipped(filenames, gzipped) == FirstGzipped(filenames[i..], gzipped)
      {
        assert filenames[i..][1..] == filenames[i + 1..];
        if filenames[i] in gzipped {
          return Some(filenames[i]);
        }
        i := i + 1;
      }
      found := None;
    }

    /** The list comprehension opening the block files: the first one that is not there raises. */
    method FindMissing() returns (missing: Option<string>)
      ensures missing == FirstMissing(filenames, disk)
    {
      var i := 0;
      while i < |filenames|
        invariant 0 <= i <= |filenames|
        invariant FirstMissing(filenames, disk) == FirstMissing(filenames[i..], disk)
      {
        assert filenames[i..][1..] == filenames[i + 1..];
        if filenames[i] !in disk {
          return Some(filenames[i]);
        }
        i := i + 1;
      }
      missing := None;
    }

    /** The `with open('final_index.txt', 'w')` block: the merge output, as far as the merge got. */
    method WriteFinalIndex(blocks: seq<seq<string>>) returns (ok: bool, ghost picked: seq<string>)
      modifies this`disk
      ensures AllHaveFields(picked)
      ensures disk == old(disk)[FinalIndexPath := OutputFileLines(Assemble(TakenOf(picked)))]
      ensures ok <==> "" !in OpenedLines(blocks) && LiveHaveFields(blocks)
      ensures "" in OpenedLines(blocks) ==> picked == []
      ensures ok ==> multiset(picked) == AllLive(blocks)
      ensures multiset(picked) <= AllLive(blocks)
      ensures BlocksSorted(blocks) ==> SortedPicked(picked)
    {
      var out;
      ok, out, picked := Merge(blocks);
      disk := disk[FinalIndexPath := OutputFileLines(out)];
    }

    /** `[os.remove(f) for f in self.filenames]`: stops with FileNotFoundError at a name already removed. */
    method RemoveBlockFiles() returns (missing: Option<string>)
      modifies this`disk
      ensures (disk, missing) == RemoveFiles(old(disk), filenames)
    {
      var i := 0;
      while i < |filenames|
        invariant 0 <= i <= |filenames|
        invariant RemoveFiles(disk, filenames[i..]) == RemoveFiles(old(disk), filenames)
      {
        assert filenames[i..][1..] == filenames[i + 1..];
        if filenames[i] !in disk {
          return Some(filenames[i]);
        }
        disk := disk - {filenames[i]};
        i := i + 1;
      }
      missing := None;
    }
  }
}
