/**
 * `status()` of scripts/storage.py with its I/O replaced by inputs: the lines the listing
 * tool printed, the path read from `.gstorage`, the names in the working directory, and the
 * regular files among them with their sizes. The result is the list of printed lines.
 */
module Status {
  import opened Base
  import opened Text
  import opened Listing
  import opened LocalFiles
  import opened Reconcile
  import opened RowFormat

  /** The printed report for a list of rows. */
  function FormatAll(rows: seq<Row>): (lines: seq<string>)
    ensures |lines| == |rows|
    ensures forall i :: 0 <= i < |rows| ==> lines[i] == FormatRow(rows[i])
  {
    seq(|rows|, i requires 0 <= i < |rows| => FormatRow(rows[i]))
  }

  /** The whole report: the rows of every name of either side, in sorted order. */
  ghost function Expected(remote: map<string, nat>, local: map<string, nat>): seq<Row>
  {
    Report(SortedKeys(remote.Keys + local.Keys), local, remote)
  }

  /**
   * The report over the sorted union: the rows naming `f` are exactly those of `f`'s
   * presence (none when `f` is on neither side), row names ascend, and every row names a
   * file of one side or the other.
   */
  lemma ExpectedRows(remote: map<string, nat>, local: map<string, nat>, f: string)
    ensures RowsNamed(Expected(remote, local), f) ==
      if f in local || f in remote then RowsFor(f, PresenceOf(f, local, remote)) else []
    ensures NamesAscending(Expected(remote, local))
    ensures forall x :: x in Expected(remote, local) ==> x.name in local || x.name in remote
  {
    var names := SortedKeys(remote.Keys + local.Keys);
    StrictlySortedDistinct(names);
    ReportRowsNamed(names, local, remote, f);
    ReportAscending(names, local, remote);
    ReportCoverage(names, local, remote);
  }

  method Status(listing: seq<seq<string>>, gsPath: string, names: seq<string>, regular: map<string, nat>)
    returns (out: Result<seq<string>, ParseError>)
    ensures ParseListing(listing, gsPath).Err? ==> out == Err(ParseListing(listing, gsPath).error)
    ensures ParseListing(listing, gsPath).Ok? ==>
      out == Ok(FormatAll(Expected(ParseListing(listing, gsPath).value, LocalMap(names, regular))))
  {
    var parsed := ParseRemote(listing, gsPath);
    if parsed.Err? {
      return Err(parsed.error);
    }
    var remote := parsed.value;
    var local := LocalSizes(names, regular);
    var filenames := SortedUnion(remote.Keys, local.Keys);
    var data := BuildRows(filenames, local, remote);
    var printed := PrintRows(data);
    return Ok(printed);
  }

  /** The loop of lines 90-91, one printed line per row. */
  method PrintRows(data: seq<Row>) returns (printed: seq<string>)
    ensures printed == FormatAll(data)
  {
    printed := [];
    for i := 0 to |data|
      invariant |printed| == i
      invariant forall j :: 0 <= j < i ==> printed[j] == FormatRow(data[j])
    {
      printed := printed + [FormatRow(data[i])];
    }
  }

  /**
   * Local {"a.txt": 10, "b.txt": 20} against remote {"a.txt": 10, "c.txt": 5} gives a.txt
   * in sync, b.txt local only, c.txt remote only.
   */
  lemma ExampleReport()
    ensures Report(["a.txt", "b.txt", "c.txt"], map["a.txt" := 10, "b.txt" := 20], map["a.txt" := 10, "c.txt" := 5]) ==
      [Row("", "LR", 10, "a.txt", ""), Row(Green, "L-", 20, "b.txt", Reset), Row(Blue, "-R", 5, "c.txt", Reset)]
  {
    var local: map<string, nat> := map["a.txt" := 10, "b.txt" := 20];
    var remote: map<string, nat> := map["a.txt" := 10, "c.txt" := 5];
    var names := ["a.txt", "b.txt", "c.txt"];
    assert names[..2][..1] == ["a.txt"];
    assert names[..2] == ["a.txt", "b.txt"];
    assert ["a.txt"][..0] == [];
    assert "c.txt" !in local && "b.txt" !in remote;
    assert Report(["a.txt"], local, remote) == [Row("", "LR", 10, "a.txt", "")];
    assert Report(["a.txt", "b.txt"], local, remote) == [Row("", "LR", 10, "a.txt", ""), Row(Green, "L-", 20, "b.txt", Reset)];
  }
}
