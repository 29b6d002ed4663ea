/**
 * The module-level loop of scripts/loras.py: for every regular file of the working
 * directory whose name ends in `.safetensors`, print its name, the model's output name,
 * and for each training folder the five most frequent tags with their counts.
 *
 * Reading, `json.loads` and `print` are inputs and outputs: a file is its name and bytes,
 * the two JSON decodings are functions handed to the run, and the run returns the printed
 * lines as structured values together with the exception that ended it, if any.
 *
 * `decodeHeader` gives `None` only for bytes that `json.loads` rejects. Any JSON value it
 * accepts is a `SafetensorsHeader`; one that is not an object, or whose `__metadata__` is
 * missing or not an object, has no `metadata`, since the lookup of line 26 then raises
 * inside the `try`. `decodeTags` gives `None` for text that is not JSON.
 */
module LoraReport {
  import opened Base
  import opened Text
  import opened Header
  import opened TopN

  /** One training folder of `ss_tag_frequency`: its name and its tag counts. */
  datatype Folder = Folder(key: string, tags: seq<Entry>)

  /** The `ss_tag_frequency` entry of the metadata: missing, a string, or another JSON value. */
  datatype TagField = Absent | Encoded(text: string) | NotText

  /** The `__metadata__` object, with the two entries the script reads. */
  datatype Metadata = Metadata(outputName: Option<string>, tagFrequency: TagField)

  /** The decoded JSON header; `metadata` is `None` unless `__metadata__` is an object. */
  datatype SafetensorsHeader = SafetensorsHeader(metadata: Option<Metadata>)

  /** A regular file of the working directory. */
  datatype FileRecord = FileRecord(name: string, contents: seq<byte>)

  /** The exceptions the loop does not catch; each one ends the run. */
  datatype ReportError =
    | ShortFile(name: string)               // struct.error, line 22
    | InvalidHeader(name: string)           // json.loads, line 24
    | MissingTagFrequency(name: string)     // KeyError, line 30
    | InvalidTagFrequency(name: string)     // json.loads, line 30: not a string, or not JSON

  /** The printed lines, in the order of lines 20, 29, 32, 35 and 36. */
  datatype ReportLine =
    | FileHeading(file: string)                     // # {filename}
    | ModelHeading(output: string)                  // [{ss_output_name}]
    | FolderHeading(output: string, folder: string) //     [{ss_output_name}.{key}]
    | TagLine(tag: string, count: int)              //     {k} = {tags[k]}
    | Blank                                         // print()

  /** What one file contributes: its lines, and the error that stopped the run, if any. */
  datatype Outcome = Outcome(lines: seq<ReportLine>, failed: Option<ReportError>)

  const Suffix := ".safetensors"
  const TagsShown: nat := 5

  /** Lines 34-35: one line per tag of `top_n_values(tags)`. */
  function TagLines(top: seq<Entry>): (r: seq<ReportLine>)
    ensures |r| == |top|
    ensures forall i :: 0 <= i < |r| ==> r[i] == TagLine(top[i].tag, top[i].count)
  {
    if |top| == 0 then []
    else TagLines(top[..|top| - 1]) + [TagLine(top[|top| - 1].tag, top[|top| - 1].count)]
  }

  /** Lines 32-35 for one folder. */
  function FolderLines(output: string, f: Folder): seq<ReportLine>
  {
    [FolderHeading(output, f.key)] + TagLines(TopNValues(f.tags, TagsShown))
  }

  /** Lines 31-35: the folders in the order of `ss_tag_frequency.keys()`. */
  function FoldersLines(output: string, folders: seq<Folder>): seq<ReportLine>
  {
    if |folders| == 0 then []
    else FoldersLines(output, folders[..|folders| - 1]) + FolderLines(output, folders[|folders| - 1])
  }

  /** Lines 18-36 for one file. */
  function FileOutcome(f: FileRecord, decodeHeader: seq<byte> -> Option<SafetensorsHeader>,
                       decodeTags: string -> Option<seq<Folder>>): Outcome
  {
    if !EndsWith(f.name, Suffix) then Outcome([], None)
    else
      match HeaderLength(f.contents)
      case Err(_) => Outcome([FileHeading(f.name)], Some(ShortFile(f.name)))
      case Ok(length) => HeaderOutcome(f.name, decodeHeader(HeaderBytes(f.contents, length)), decodeTags)
  }

  /** Lines 24-36, once the header bytes of file `name` are read and handed to `json.loads`. */
  function HeaderOutcome(name: string, header: Option<SafetensorsHeader>,
                         decodeTags: string -> Option<seq<Folder>>): Outcome
  {
    var heading := [FileHeading(name)];
    match header
    case None => Outcome(heading, Some(InvalidHeader(name)))
    case Some(h) =>
      if h.metadata.None? || h.metadata.value.outputName.None? then Outcome(heading, None)
      else
        var output := h.metadata.value.outputName.value;
        var named := heading + [ModelHeading(output)];
        match h.metadata.value.tagFrequency
        case Absent => Outcome(named, Some(MissingTagFrequency(name)))
        case NotText => Outcome(named, Some(InvalidTagFrequency(name)))
        case Encoded(text) =>
          match decodeTags(text)
          case None => Outcome(named, Some(InvalidTagFrequency(name)))
          case Some(folders) => Outcome(named + FoldersLines(output, folders) + [Blank], None)
  }

  /** What each file would print on its own, in directory order. */
  function Outcomes(files: seq<FileRecord>, decodeHeader: seq<byte> -> Option<SafetensorsHeader>,
                    decodeTags: string -> Option<seq<Folder>>): (r: seq<Outcome>)
    ensures |r| == |files|
    ensures forall i :: 0 <= i < |files| ==> r[i] == FileOutcome(files[i], decodeHeader, decodeTags)
  {
    seq(|files|, i requires 0 <= i < |files| => FileOutcome(files[i], decodeHeader, decodeTags))
  }

  /** The outcomes one after the other, up to and including the first that fails. */
  function Chain(outs: seq<Outcome>): Outcome
  {
    if |outs| == 0 then Outcome([], None)
    else
      var before := Chain(outs[..|outs| - 1]);
      if before.failed.Some? then before
      else Outcome(before.lines + outs[|outs| - 1].lines, outs[|outs| - 1].failed)
  }

  /** The loop of lines 17-36 over the files in directory order, stopping at the first error. */
  function Run(files: seq<FileRecord>, decodeHeader: seq<byte> -> Option<SafetensorsHeader>,
               decodeTags: string -> Option<seq<Folder>>): Outcome
  {
    Chain(Outcomes(files, decodeHeader, decodeTags))
  }

  /** Lines 31-35 as the loops that print them. */
  method PrintFolders(output: string, folders: seq<Folder>) returns (lines: seq<ReportLine>)
    ensures lines == FoldersLines(output, folders)
  {
    lines := [];
    for i := 0 to |folders|
      invariant lines == FoldersLines(output, folders[..i])
    {
      var heading := FolderHeading(output, folders[i].key);
      var top := TopNValues(folders[i].tags, TagsShown);
      var shown := [];
      for j := 0 to |top|
        invariant shown == TagLines(top[..j])
      {
        assert top[..j + 1][..j] == top[..j];
        shown := shown + [TagLine(top[j].tag, top[j].count)];
      }
      assert top[..|top|] == top;
      assert folders[..i + 1][..i] == folders[..i];
      lines := lines + ([heading] + shown);
    }
    assert folders[..|folders|] == folders;
  }

  /** Lines 18-36 for one file; `failed` is the exception that escapes, if any. */
  method ProcessFile(f: FileRecord, decodeHeader: seq<byte> -> Option<SafetensorsHeader>,
                     decodeTags: string -> Option<seq<Folder>>)
    returns (lines: seq<ReportLine>, failed: Option<ReportError>)
    ensures Outcome(lines, failed) == FileOutcome(f, decodeHeader, decodeTags)
  {
    if !EndsWith(f.name, Suffix) {
      return [], None;
    }
    var length := HeaderLength(f.contents);
    if length.Err? {
      return [FileHeading(f.name)], Some(ShortFile(f.name));
    }
    var header := decodeHeader(HeaderBytes(f.contents, length.value));
    lines, failed := ReportHeader(f.name, header, decodeTags);
  }

  /** Lines 20 and 24-36 for a file whose header bytes decoded to `header`. */
  method ReportHeader(name: string, header: Option<SafetensorsHeader>, decodeTags: string -> Option<seq<Folder>>)
    returns (lines: seq<ReportLine>, failed: Option<ReportError>)
    ensures Outcome(lines, failed) == HeaderOutcome(name, header, decodeTags)
  {
    lines := [FileHeading(name)];
    failed := None;
    if header.None? {
      failed := Some(InvalidHeader(name));
      return;
    }
    var metadata := header.value.metadata;
    if metadata.None? || metadata.value.outputName.None? {
      return;
    }
    var output := metadata.value.outputName.value;
    lines := lines + [ModelHeading(output)];
    if metadata.value.tagFrequency.Absent? {
      failed := Some(MissingTagFrequency(name));
      return;
    }
    if metadata.value.tagFrequency.NotText? {
      failed := Some(InvalidTagFrequency(name));
      return;
    }
    var folders := decodeTags(metadata.value.tagFrequency.text);
    if folders.None? {
      failed := Some(InvalidTagFrequency(name));
      return;
    }
    var body := PrintFolders(output, folders.value);
    lines := lines + body + [Blank];
  }

  /** The whole loop, lines 17-36: the printed lines and the exception that ended it, if any. */
  method PrintReport(files: seq<FileRecord>, decodeHeader: seq<byte> -> Option<SafetensorsHeader>,
                     decodeTags: string -> Option<seq<Folder>>)
    returns (printed: seq<ReportLine>, failed: Option<ReportError>)
    ensures Outcome(printed, failed) == Run(files, decodeHeader, decodeTags)
  {
    ghost var outs := Outcomes(files, decodeHeader, decodeTags);
    printed := [];
    failed := None;
    for i := 0 to |files|
      invariant Chain(outs[..i]) == Outcome(printed, None)
    {
      assert outs[..i + 1][..i] == outs[..i];
      var lines, error := ProcessFile(files[i], decodeHeader, decodeTags);
      printed := printed + lines;
      if error.Some? {
        failed := error;
        ChainStopsAtFailure(outs, i + 1);
        return;
      }
    }
    assert outs[..|files|] == outs;
  }

  /** Once a prefix of the outcomes has failed, the remaining ones change nothing. */
  lemma {:induction false} ChainStopsAtFailure(outs: seq<Outcome>, k: nat)
    requires k <= |outs| && Chain(outs[..k]).failed.Some?
    ensures Chain(outs) == Chain(outs[..k])
    decreases |outs|
  {
    if k < |outs| {
      var init := outs[..|outs| - 1];
      assert init[..k] == outs[..k];
      ChainStopsAtFailure(init, k);
    } else {
      assert outs[..k] == outs;
    }
  }

  lemma {:induction false} ChainAppend(a: seq<Outcome>, b: seq<Outcome>)
    ensures Chain(a + b) ==
      if Chain(a).failed.Some? then Chain(a) else Outcome(Chain(a).lines + Chain(b).lines, Chain(b).failed)
    decreases |b|
  {
    if |b| == 0 {
      assert a + b == a;
    } else {
      var ab := a + b;
      assert ab[..|ab| - 1] == a + b[..|b| - 1];
      assert ab[|ab| - 1] == b[|b| - 1];
      ChainAppend(a, b[..|b| - 1]);
    }
  }

  lemma OutcomesAppend(a: seq<FileRecord>, b: seq<FileRecord>,
                       decodeHeader: seq<byte> -> Option<SafetensorsHeader>,
                       decodeTags: string -> Option<seq<Folder>>)
    ensures Outcomes(a + b, decodeHeader, decodeTags) ==
      Outcomes(a, decodeHeader, decodeTags) + Outcomes(b, decodeHeader, decodeTags)
  {
    var l := Outcomes(a + b, decodeHeader, decodeTags);
    var r := Outcomes(a, decodeHeader, decodeTags) + Outcomes(b, decodeHeader, decodeTags);
    forall i | 0 <= i < |l| ensures l[i] == r[i] {
      if i < |a| {
        assert (a + b)[i] == a[i];
      } else {
        assert (a + b)[i] == b[i - |a|];
      }
    }
  }

  /** The run over a non-empty list is the run over all but its last file, then that file. */
  lemma RunStep(files: seq<FileRecord>, decodeHeader: seq<byte> -> Option<SafetensorsHeader>,
                decodeTags: string -> Option<seq<Folder>>)
    requires |files| > 0
    ensures var before := Run(files[..|files| - 1], decodeHeader, decodeTags);
      var last := FileOutcome(files[|files| - 1], decodeHeader, decodeTags);
      Run(files, decodeHeader, decodeTags) ==
        if before.failed.Some? then before else Outcome(before.lines + last.lines, last.failed)
  {
    var init := files[..|files| - 1];
    assert files == init + [files[|files| - 1]];
    OutcomesAppend(init, [files[|files| - 1]], decodeHeader, decodeTags);
    var outs := Outcomes(files, decodeHeader, decodeTags);
    assert outs[..|outs| - 1] == Outcomes(init, decodeHeader, decodeTags);
  }

  /** Once a prefix of the files has failed, the remaining files change nothing. */
  lemma RunStopsAtFailure(files: seq<FileRecord>, k: nat,
                          decodeHeader: seq<byte> -> Option<SafetensorsHeader>,
                          decodeTags: string -> Option<seq<Folder>>)
    requires k <= |files| && Run(files[..k], decodeHeader, decodeTags).failed.Some?
    ensures Run(files, decodeHeader, decodeTags) == Run(files[..k], decodeHeader, decodeTags)
  {
    assert files == files[..k] + files[k..];
    OutcomesAppend(files[..k], files[k..], decodeHeader, decodeTags);
    ChainAppend(Outcomes(files[..k], decodeHeader, decodeTags), Outcomes(files[k..], decodeHeader, decodeTags));
  }

  /** Running two lists of files one after the other is running their concatenation. */
  lemma RunAppend(a: seq<FileRecord>, b: seq<FileRecord>,
                  decodeHeader: seq<byte> -> Option<SafetensorsHeader>,
                  decodeTags: string -> Option<seq<Folder>>)
    ensures var ra := Run(a, decodeHeader, decodeTags);
      var rb := Run(b, decodeHeader, decodeTags);
      Run(a + b, decodeHeader, decodeTags) ==
        if ra.failed.Some? then ra else Outcome(ra.lines + rb.lines, rb.failed)
  {
    OutcomesAppend(a, b, decodeHeader, decodeTags);
    ChainAppend(Outcomes(a, decodeHeader, decodeTags), Outcomes(b, decodeHeader, decodeTags));
  }

  /** The file names printed by line 20, in order. */
  function Headings(lines: seq<ReportLine>): seq<string>
  {
    if |lines| == 0 then []
    else Headings(lines[..|lines| - 1]) + (if lines[|lines| - 1].FileHeading? then [lines[|lines| - 1].file] else [])
  }

  /** The names that pass the test of lines 18-19, in directory order. */
  function SafetensorsNames(files: seq<FileRecord>): seq<string>
  {
    if |files| == 0 then []
    else SafetensorsNames(files[..|files| - 1]) + (if EndsWith(files[|files| - 1].name, Suffix) then [files[|files| - 1].name] else [])
  }

  lemma {:induction false} HeadingsAppend(a: seq<ReportLine>, b: seq<ReportLine>)
    ensures Headings(a + b) == Headings(a) + Headings(b)
    decreases |b|
  {
    if |b| == 0 {
      assert a + b == a;
    } else {
      assert (a + b)[..|a + b| - 1] == a + b[..|b| - 1];
      HeadingsAppend(a, b[..|b| - 1]);
    }
  }

  lemma {:induction false} NoHeadingsInFolders(output: string, folders: seq<Folder>)
    ensures Headings(FoldersLines(output, folders)) == []
    decreases |folders|
  {
    if |folders| > 0 {
      var f := folders[|folders| - 1];
      NoHeadingsInFolders(output, folders[..|folders| - 1]);
      var tags := TagLines(TopNValues(f.tags, TagsShown));
      NoHeadingsInTags(tags);
      HeadingsAppend([FolderHeading(output, f.key)], tags);
      assert Headings([FolderHeading(output, f.key)]) == [] by {
        assert [FolderHeading(output, f.key)][..0] == [];
      }
      HeadingsAppend(FoldersLines(output, folders[..|folders| - 1]), FolderLines(output, f));
    }
  }

  lemma {:induction false} NoHeadingsInTags(lines: seq<ReportLine>)
    requires forall i :: 0 <= i < |lines| ==> lines[i].TagLine?
    ensures Headings(lines) == []
    decreases |lines|
  {
    if |lines| > 0 {
      NoHeadingsInTags(lines[..|lines| - 1]);
    }
  }

  /** A file prints its own name once when it is a safetensors file, and no name otherwise. */
  lemma FileHeadings(f: FileRecord, decodeHeader: seq<byte> -> Option<SafetensorsHeader>,
                     decodeTags: string -> Option<seq<Folder>>)
    ensures Headings(FileOutcome(f, decodeHeader, decodeTags).lines) ==
      if EndsWith(f.name, Suffix) then [f.name] else []
  {
    if EndsWith(f.name, Suffix) {
      var heading := [FileHeading(f.name)];
      assert Headings(heading) == [f.name] by {
        assert heading[..0] == [];
      }
      if HeaderLength(f.contents).Ok? {
        var length := HeaderLength(f.contents).value;
        HeaderHeadings(f.name, decodeHeader(HeaderBytes(f.contents, length)), decodeTags);
      }
    }
  }

  lemma HeaderHeadings(name: string, header: Option<SafetensorsHeader>, decodeTags: string -> Option<seq<Folder>>)
    ensures Headings(HeaderOutcome(name, header, decodeTags).lines) == [name]
  {
    var heading := [FileHeading(name)];
    assert Headings(heading) == [name] by {
      assert heading[..0] == [];
    }
    if header.Some? && header.value.metadata.Some? && header.value.metadata.value.outputName.Some? {
      var output := header.value.metadata.value.outputName.value;
      var named := heading + [ModelHeading(output)];
      assert Headings(named) == [name];
      var md := header.value.metadata.value;
      if md.tagFrequency.Encoded? && decodeTags(md.tagFrequency.text).Some? {
        var body := FoldersLines(output, decodeTags(md.tagFrequency.text).value);
        NoHeadingsInFolders(output, decodeTags(md.tagFrequency.text).value);
        HeadingsAppend(named, body);
        assert Headings(named + body + [Blank]) == Headings(named + body);
      }
    }
  }

  /**
   * Only `.safetensors` files are reported: the names printed are always the first of those
   * names in directory order, and all of them when no exception ends the run.
   */
  lemma {:induction false} ReportsSafetensorsFiles(files: seq<FileRecord>,
                                                   decodeHeader: seq<byte> -> Option<SafetensorsHeader>,
                                                   decodeTags: string -> Option<seq<Folder>>)
    ensures Headings(Run(files, decodeHeader, decodeTags).lines) <= SafetensorsNames(files)
    ensures Run(files, decodeHeader, decodeTags).failed.None? ==>
      Headings(Run(files, decodeHeader, decodeTags).lines) == SafetensorsNames(files)
    decreases |files|
  {
    if |files| > 0 {
      var init := files[..|files| - 1];
      var last := files[|files| - 1];
      ReportsSafetensorsFiles(init, decodeHeader, decodeTags);
      RunStep(files, decodeHeader, decodeTags);
      var before := Run(init, decodeHeader, decodeTags);
      if before.failed.None? {
        var out := FileOutcome(last, decodeHeader, decodeTags);
        HeadingsAppend(before.lines, out.lines);
        FileHeadings(last, decodeHeader, decodeTags);
      }
    }
  }

  /** A file whose outcome carries an exception. */
  predicate Fatal(f: FileRecord, decodeHeader: seq<byte> -> Option<SafetensorsHeader>,
                  decodeTags: string -> Option<seq<Folder>>)
  {
    FileOutcome(f, decodeHeader, decodeTags).failed.Some?
  }

  /**
   * The run fails exactly when some file is fatal, and then with the exception of the first
   * such file.
   */
  lemma {:induction false} FailsAtFirstFatal(files: seq<FileRecord>,
                                             decodeHeader: seq<byte> -> Option<SafetensorsHeader>,
                                             decodeTags: string -> Option<seq<Folder>>)
    ensures Run(files, decodeHeader, decodeTags).failed.Some? <==>
      exists i :: 0 <= i < |files| && Fatal(files[i], decodeHeader, decodeTags)
    ensures forall k :: (0 <= k < |files| && Fatal(files[k], decodeHeader, decodeTags) &&
                         (forall i :: 0 <= i < k ==> !Fatal(files[i], decodeHeader, decodeTags))) ==>
      Run(files, decodeHeader, decodeTags).failed == FileOutcome(files[k], decodeHeader, decodeTags).failed
  {
    var outs := Outcomes(files, decodeHeader, decodeTags);
    ChainFailsAtFirst(outs);
    assert forall i :: 0 <= i < |files| ==> (Fatal(files[i], decodeHeader, decodeTags) <==> outs[i].failed.Some?);
  }

  /** The chain fails exactly when some outcome does, and then with the first failure. */
  lemma {:induction false} ChainFailsAtFirst(outs: seq<Outcome>)
    ensures Chain(outs).failed.Some? <==> exists i :: 0 <= i < |outs| && outs[i].failed.Some?
    ensures forall k :: (0 <= k < |outs| && outs[k].failed.Some? &&
                         (forall i :: 0 <= i < k ==> outs[i].failed.None?)) ==>
      Chain(outs).failed == outs[k].failed
    decreases |outs|
  {
    if |outs| > 0 {
      var init := outs[..|outs| - 1];
      ChainFailsAtFirst(init);
      assert forall i :: 0 <= i < |init| ==> init[i] == outs[i];
      if Chain(init).failed.Some? {
        var j :| 0 <= j < |init| && init[j].failed.Some?;
        assert outs[j].failed.Some?;
      }
    }
  }

  /**
   * Lines 18-19 and 25-28: a file that is not a safetensors file, or whose header has no
   * `__metadata__.ss_output_name`, prints at most its name and the run goes on to the next
   * file exactly as if it were not there.
   */
  predicate Skipped(f: FileRecord, decodeHeader: seq<byte> -> Option<SafetensorsHeader>)
  {
    || !EndsWith(f.name, Suffix)
    || (HeaderLength(f.contents).Ok? &&
        var header := decodeHeader(HeaderBytes(f.contents, HeaderLength(f.contents).value));
        header.Some? && (header.value.metadata.None? || header.value.metadata.value.outputName.None?))
  }

  lemma SkippedFileContinues(before: seq<FileRecord>, f: FileRecord, after: seq<FileRecord>,
                             decodeHeader: seq<byte> -> Option<SafetensorsHeader>,
                             decodeTags: string -> Option<seq<Folder>>)
    requires Skipped(f, decodeHeader)
    ensures FileOutcome(f, decodeHeader, decodeTags) ==
      Outcome(if EndsWith(f.name, Suffix) then [FileHeading(f.name)] else [], None)
    ensures var r := Run(before + [f] + after, decodeHeader, decodeTags);
      var skip := Run(before + after, decodeHeader, decodeTags);
      var b := Run(before, decodeHeader, decodeTags);
      r.failed == skip.failed &&
      (b.failed.None? ==>
        r.lines == b.lines + FileOutcome(f, decodeHeader, decodeTags).lines + Run(after, decodeHeader, decodeTags).lines &&
        skip.lines == b.lines + Run(after, decodeHeader, decodeTags).lines)
  {
    RunAppend(before, [f], decodeHeader, decodeTags);
    RunAppend(before + [f], after, decodeHeader, decodeTags);
    RunAppend(before, after, decodeHeader, decodeTags);
    RunStep([f], decodeHeader, decodeTags);
    assert [f][..0] == [];
  }

  /**
   * Each training folder prints its heading and then `min(5, len(tags))` of its tags, with
   * counts that never increase, every one an item of the folder's tag counts.
   */
  lemma FolderLinesShape(output: string, f: Folder)
    ensures var lines := FolderLines(output, f);
      && |lines| == 1 + Min(TagsShown, |f.tags|)
      && lines[0] == FolderHeading(output, f.key)
      && (forall i :: 1 <= i < |lines| ==> lines[i].TagLine? && Entry(lines[i].tag, lines[i].count) in f.tags)
      && (forall i, j :: 1 <= i < j < |lines| ==> lines[i].count >= lines[j].count)
  {
    var top := TopNValues(f.tags, TagsShown);
    TopNSelects(f.tags, TagsShown);
    var lines := FolderLines(output, f);
    forall i | 1 <= i < |lines|
      ensures lines[i] == TagLine(top[i - 1].tag, top[i - 1].count) && top[i - 1] in top
    {
    }
  }
}
