/**
 * The remote side of `status` in scripts/storage.py: turning the lines printed by
 * `gsutil ls -l <gs_path>` into a map from object name (relative to `gs_path`) to size.
 *
 * Each line is given already split into its whitespace-separated fields, as a split with
 * no separator yields them.
 * A stripped line starts with "TOTAL:" exactly when its first field does, since the
 * prefix holds no whitespace.
 */
module Listing {
  import opened Base
  import opened Text

  /** The exception the parse loop raises on a malformed line, with the index of that line. */
  datatype ParseError =
    | MissingFields(line: nat)   // fewer than two fields: indexing raises IndexError
    | OutsidePath(line: nat)     // the URL is not under the path: the assertion fails
    | BadSize(line: nat)         // the size field is not a number: ValueError

  /** What one line of the listing amounts to. */
  datatype LineKind =
    | Summary                          // the `TOTAL:` line
    | Directory                        // a name ending in "/"
    | Entry(key: string, size: nat)    // an object and its size
    | Malformed(error: ParseError)

  /** The name of the listed object once `gs_path + "/"` is stripped, if the line has one. */
  function UrlOf(fields: seq<string>): string
    requires |fields| >= 2
  {
    JoinSpaces(fields[2..])
  }

  /** The classification of line number `i`, in the order the loop body tests things. */
  function ClassifyLine(fields: seq<string>, gsPath: string, i: nat): (k: LineKind)
    ensures k.Entry? ==> !EndsWith(k.key, "/")
    ensures k.Entry? ==> |fields| >= 2 && StartsWith(UrlOf(fields), gsPath + "/")
                         && k.key == DropPrefix(UrlOf(fields), gsPath + "/")
                         && ParseDecimal(fields[0]) == Some(k.size)
    ensures k.Summary? <==> |fields| > 0 && StartsWith(fields[0], "TOTAL:")
    ensures k.Malformed? ==> k.error.line == i
    ensures !(|fields| > 0 && StartsWith(fields[0], "TOTAL:")) ==>
      && (|fields| < 2 ==> k == Malformed(MissingFields(i)))
      && ((|fields| >= 2 && !StartsWith(UrlOf(fields), gsPath + "/")) ==> k == Malformed(OutsidePath(i)))
      && ((|fields| >= 2 && StartsWith(UrlOf(fields), gsPath + "/")) ==>
            var key := DropPrefix(UrlOf(fields), gsPath + "/");
            && (EndsWith(key, "/") ==> k == Directory)
            && ((!EndsWith(key, "/") && ParseDecimal(fields[0]).None?) ==> k == Malformed(BadSize(i)))
            && ((!EndsWith(key, "/") && ParseDecimal(fields[0]).Some?) ==> k == Entry(key, ParseDecimal(fields[0]).value)))
  {
    if |fields| > 0 && StartsWith(fields[0], "TOTAL:") then Summary
    else if |fields| < 2 then Malformed(MissingFields(i))
    else if !StartsWith(UrlOf(fields), gsPath + "/") then Malformed(OutsidePath(i))
    else
      var key := DropPrefix(UrlOf(fields), gsPath + "/");
      if EndsWith(key, "/") then Directory
      else match ParseDecimal(fields[0])
        case None => Malformed(BadSize(i))
        case Some(n) => Entry(key, n)
  }

  /** The dictionary `remote` after the loop has run over `lines`, or the first error it hits. */
  function ParseListing(lines: seq<seq<string>>, gsPath: string): Result<map<string, nat>, ParseError>
    decreases |lines|
  {
    if |lines| == 0 then Ok(map[])
    else
      match ParseListing(lines[..|lines| - 1], gsPath)
      case Err(e) => Err(e)
      case Ok(remote) =>
        match ClassifyLine(lines[|lines| - 1], gsPath, |lines| - 1)
        case Summary => Ok(remote)
        case Directory => Ok(remote)
        case Entry(key, size) => Ok(remote[key := size])
        case Malformed(e) => Err(e)
  }

  /** Once a prefix of the listing fails, the whole listing fails with the same error. */
  lemma {:induction false} ErrorPersists(lines: seq<seq<string>>, gsPath: string, i: nat)
    requires i <= |lines| && ParseListing(lines[..i], gsPath).Err?
    ensures ParseListing(lines, gsPath) == ParseListing(lines[..i], gsPath)
    decreases |lines| - i
  {
    if i < |lines| {
      assert lines[..i + 1][..i] == lines[..i];
      ErrorPersists(lines, gsPath, i + 1);
    } else {
      assert lines[..i] == lines;
    }
  }

  /** The loop of lines 43-57, with its `continue` skips and the exceptions as early returns. */
  method ParseRemote(lines: seq<seq<string>>, gsPath: string) returns (res: Result<map<string, nat>, ParseError>)
    ensures res == ParseListing(lines, gsPath)
  {
    var remote: map<string, nat> := map[];
    var i := 0;
    while i < |lines|
      invariant 0 <= i <= |lines|
      invariant ParseListing(lines[..i], gsPath) == Ok(remote)
    {
      assert lines[..i + 1][..i] == lines[..i];
      var parts := lines[i];
      if |parts| > 0 && StartsWith(parts[0], "TOTAL:") {
        // Skip the total line
        assert ClassifyLine(parts, gsPath, i) == Summary;
        i := i + 1;
        continue;
      }
      if |parts| < 2 {
        assert ClassifyLine(parts, gsPath, i) == Malformed(MissingFields(i));
        ErrorPersists(lines, gsPath, i + 1);
        return Err(MissingFields(i));
      }
      var size, url := parts[0], JoinSpaces(parts[2..]);
      if !StartsWith(url, gsPath + "/") {
        assert ClassifyLine(parts, gsPath, i) == Malformed(OutsidePath(i));
        ErrorPersists(lines, gsPath, i + 1);
        return Err(OutsidePath(i));
      }
      url := url[|gsPath| + 1..];
      assert url == DropPrefix(UrlOf(parts), gsPath + "/");
      if EndsWith(url, "/") {
        // A directory; skip it
        assert ClassifyLine(parts, gsPath, i) == Directory;
        i := i + 1;
        continue;
      }
      var n := ParseDecimal(size);
      if n.None? {
        assert ClassifyLine(parts, gsPath, i) == Malformed(BadSize(i));
        ErrorPersists(lines, gsPath, i + 1);
        return Err(BadSize(i));
      }
      assert ClassifyLine(parts, gsPath, i) == Entry(url, n.value);
      remote := remote[url := n.value];
      i := i + 1;
    }
    assert lines[..i] == lines;
    return Ok(remote);
  }

  // ---------------------------------------------------------------------------
  // What the parse means, stated without the loop.
  // ---------------------------------------------------------------------------

  /** A line that the loop rejects. */
  predicate IsMalformed(fields: seq<string>, gsPath: string)
  {
    ClassifyLine(fields, gsPath, 0).Malformed?
  }

  /** The same failure, reported at line `n`. */
  function AtLine(e: ParseError, n: nat): (r: ParseError)
    ensures r.line == n
  {
    match e
    case MissingFields(_) => MissingFields(n)
    case OutsidePath(_) => OutsidePath(n)
    case BadSize(_) => BadSize(n)
  }

  lemma MalformedAtAnyIndex(fields: seq<string>, gsPath: string, i: nat)
    ensures ClassifyLine(fields, gsPath, i).Malformed? == IsMalformed(fields, gsPath)
    ensures !IsMalformed(fields, gsPath) ==> ClassifyLine(fields, gsPath, i) == ClassifyLine(fields, gsPath, 0)
    ensures IsMalformed(fields, gsPath) ==>
      ClassifyLine(fields, gsPath, i).Malformed? &&
      ClassifyLine(fields, gsPath, i).error == AtLine(ClassifyLine(fields, gsPath, 0).error, i)
  {
  }

  /**
   * The parse fails exactly when some line is malformed, and then with the error of the
   * first such line; otherwise it succeeds.
   */
  lemma {:induction false} FailsAtFirstMalformed(lines: seq<seq<string>>, gsPath: string)
    ensures ParseListing(lines, gsPath).Err? <==> exists i :: 0 <= i < |lines| && IsMalformed(lines[i], gsPath)
    ensures ParseListing(lines, gsPath).Err? ==>
      var i := ParseListing(lines, gsPath).error.line;
      && i < |lines|
      && IsMalformed(lines[i], gsPath)
      && ClassifyLine(lines[i], gsPath, i) == Malformed(ParseListing(lines, gsPath).error)
      && (forall j :: 0 <= j < i ==> !IsMalformed(lines[j], gsPath))
    decreases |lines|
  {
    if |lines| > 0 {
      var init := lines[..|lines| - 1];
      var last := |lines| - 1;
      FailsAtFirstMalformed(init, gsPath);
      MalformedAtAnyIndex(lines[last], gsPath, last);
      forall j | 0 <= j < last ensures lines[j] == init[j] {}
      if ParseListing(init, gsPath).Err? {
        var i := ParseListing(init, gsPath).error.line;
        assert lines[i] == init[i];
      } else {
        assert forall j :: 0 <= j < last ==> !IsMalformed(lines[j], gsPath);
      }
    }
  }

  /** An object line: the name it inserts and the size it gives. */
  datatype Listed = Listed(key: string, size: nat)

  /** The entry line `i` contributes, if any. */
  function EntryAt(lines: seq<seq<string>>, gsPath: string, i: nat): Option<Listed>
    requires i < |lines|
  {
    match ClassifyLine(lines[i], gsPath, i)
    case Entry(key, size) => Some(Listed(key, size))
    case _ => None
  }

  /** `k` is the key of line `i`, and no later line has key `k`. */
  predicate LastEntryFor(lines: seq<seq<string>>, gsPath: string, k: string, i: int)
  {
    && 0 <= i < |lines|
    && EntryAt(lines, gsPath, i).Some? && EntryAt(lines, gsPath, i).value.key == k
    && forall j :: i < j < |lines| ==> !(EntryAt(lines, gsPath, j).Some? && EntryAt(lines, gsPath, j).value.key == k)
  }

  lemma EntryAtPrefix(lines: seq<seq<string>>, gsPath: string, n: nat, i: nat)
    requires i < n <= |lines|
    ensures EntryAt(lines[..n], gsPath, i) == EntryAt(lines, gsPath, i)
  {
    assert lines[..n][i] == lines[i];
  }

  /** The map after one more line: unchanged, or updated at that line's key. */
  lemma ParseStep(lines: seq<seq<string>>, gsPath: string)
    requires |lines| > 0 && ParseListing(lines, gsPath).Ok?
    ensures ParseListing(lines[..|lines| - 1], gsPath).Ok?
    ensures var before := ParseListing(lines[..|lines| - 1], gsPath).value;
            var e := EntryAt(lines, gsPath, |lines| - 1);
            ParseListing(lines, gsPath).value == if e.Some? then before[e.value.key := e.value.size] else before
  {
  }

  /** A line of the listing that inserts key `k`. */
  predicate HasEntryFor(lines: seq<seq<string>>, gsPath: string, k: string, i: int)
  {
    0 <= i < |lines| && EntryAt(lines, gsPath, i).Some? && EntryAt(lines, gsPath, i).value.key == k
  }

  /**
   * A successful parse holds exactly the keys of the entry lines; summary, directory
   * and malformed lines contribute no key.
   */
  lemma {:induction false} ParsedKeys(lines: seq<seq<string>>, gsPath: string)
    requires ParseListing(lines, gsPath).Ok?
    ensures forall k :: k in ParseListing(lines, gsPath).value <==> exists i :: HasEntryFor(lines, gsPath, k, i)
    decreases |lines|
  {
    if |lines| > 0 {
      var last := |lines| - 1;
      var init := lines[..last];
      ParseStep(lines, gsPath);
      ParsedKeys(init, gsPath);
      var before := ParseListing(init, gsPath).value;
      forall k | k in ParseListing(lines, gsPath).value
        ensures exists i :: HasEntryFor(lines, gsPath, k, i)
      {
        if !HasEntryFor(lines, gsPath, k, last) {
          assert k in before;
          var i :| HasEntryFor(init, gsPath, k, i);
          EntryAtPrefix(lines, gsPath, last, i);
          assert HasEntryFor(lines, gsPath, k, i);
        }
      }
      forall k, i | HasEntryFor(lines, gsPath, k, i)
        ensures k in ParseListing(lines, gsPath).value
      {
        if i < last {
          EntryAtPrefix(lines, gsPath, last, i);
          assert HasEntryFor(init, gsPath, k, i);
        }
      }
    }
  }

  /** Each key maps to the size on the LAST line that names it: a later duplicate overwrites an earlier one. */
  lemma {:induction false} ParsedSizes(lines: seq<seq<string>>, gsPath: string)
    requires ParseListing(lines, gsPath).Ok?
    ensures forall k, i :: LastEntryFor(lines, gsPath, k, i) ==>
      k in ParseListing(lines, gsPath).value && ParseListing(lines, gsPath).value[k] == EntryAt(lines, gsPath, i).value.size
    decreases |lines|
  {
    if |lines| > 0 {
      var last := |lines| - 1;
      var init := lines[..last];
      ParseStep(lines, gsPath);
      ParsedSizes(init, gsPath);
      forall k, i | LastEntryFor(lines, gsPath, k, i)
        ensures k in ParseListing(lines, gsPath).value
        ensures ParseListing(lines, gsPath).value[k] == EntryAt(lines, gsPath, i).value.size
      {
        if i < last {
          EntryAtPrefix(lines, gsPath, last, i);
          forall j | i < j < last
            ensures !(EntryAt(init, gsPath, j).Some? && EntryAt(init, gsPath, j).value.key == k)
          {
            EntryAtPrefix(lines, gsPath, last, j);
          }
          assert LastEntryFor(init, gsPath, k, i);
        }
      }
    }
  }

  /** No key of the remote map names a directory. */
  lemma {:induction false} NoDirectoryKeys(lines: seq<seq<string>>, gsPath: string)
    requires ParseListing(lines, gsPath).Ok?
    ensures forall k :: k in ParseListing(lines, gsPath).value ==> !EndsWith(k, "/")
  {
    ParsedKeys(lines, gsPath);
  }

  /**
   * Every remote key is the text of some line's URL with `gs_path + "/"` removed, and that
   * line's first field reads as a size.
   */
  lemma {:induction false} KeysAreStrippedUrls(lines: seq<seq<string>>, gsPath: string, k: string)
    requires ParseListing(lines, gsPath).Ok? && k in ParseListing(lines, gsPath).value
    ensures exists i :: (0 <= i < |lines| && |lines[i]| >= 2
                         && StartsWith(UrlOf(lines[i]), gsPath + "/")
                         && gsPath + "/" + k == UrlOf(lines[i])
                         && ParseDecimal(lines[i][0]).Some?)
  {
    ParsedKeys(lines, gsPath);
    var i :| HasEntryFor(lines, gsPath, k, i);
    assert |lines[i]| >= 2 && gsPath + "/" + k == UrlOf(lines[i]);
  }

  /** One more line of the loop body applied to the result so far. */
  function Step(before: Result<map<string, nat>, ParseError>, k: LineKind): Result<map<string, nat>, ParseError>
  {
    match before
    case Err(e) => Err(e)
    case Ok(remote) =>
      match k
      case Summary => Ok(remote)
      case Directory => Ok(remote)
      case Entry(key, size) => Ok(remote[key := size])
      case Malformed(e) => Err(e)
  }

  lemma ParseSnoc(lines: seq<seq<string>>, last: seq<string>, gsPath: string)
    ensures ParseListing(lines + [last], gsPath) == Step(ParseListing(lines, gsPath), ClassifyLine(last, gsPath, |lines|))
  {
    assert (lines + [last])[..|lines|] == lines;
  }

  /**
   * `with` is the parse of a listing that holds one extra `TOTAL:` line at index `n`, and
   * `without` the parse of the same listing without it.
   */
  predicate Shifted(with: Result<map<string, nat>, ParseError>, without: Result<map<string, nat>, ParseError>, n: nat)
  {
    && with.Ok? == without.Ok?
    && (with.Ok? ==> with.value == without.value)
    && (with.Err? ==>
          with.error == if without.error.line < n then without.error else AtLine(without.error, without.error.line + 1))
  }

  lemma ShiftedStep(with: Result<map<string, nat>, ParseError>, without: Result<map<string, nat>, ParseError>,
                    n: nat, fields: seq<string>, gsPath: string, i: nat)
    requires Shifted(with, without, n) && n <= i
    ensures Shifted(Step(with, ClassifyLine(fields, gsPath, i + 1)), Step(without, ClassifyLine(fields, gsPath, i)), n)
  {
    MalformedAtAnyIndex(fields, gsPath, i + 1);
    MalformedAtAnyIndex(fields, gsPath, i);
    if IsMalformed(fields, gsPath) {
      var e := ClassifyLine(fields, gsPath, 0).error;
      assert AtLine(AtLine(e, i), i + 1) == AtLine(e, i + 1) by {
        match e
        case MissingFields(_) =>
        case OutsidePath(_) =>
        case BadSize(_) =>
      }
    }
  }

  lemma {:induction false} SummaryLineShifts(a: seq<seq<string>>, total: seq<string>, b: seq<seq<string>>, gsPath: string)
    requires |total| > 0 && StartsWith(total[0], "TOTAL:")
    ensures Shifted(ParseListing(a + [total] + b, gsPath), ParseListing(a + b, gsPath), |a|)
    decreases |b|
  {
    if |b| == 0 {
      assert a + [total] + b == a + [total];
      assert a + b == a;
      ParseSnoc(a, total, gsPath);
      FailsAtFirstMalformed(a, gsPath);
    } else {
      var b', last := b[..|b| - 1], b[|b| - 1];
      assert a + [total] + b == (a + [total] + b') + [last];
      assert a + b == (a + b') + [last];
      SummaryLineShifts(a, total, b', gsPath);
      ParseSnoc(a + [total] + b', last, gsPath);
      ParseSnoc(a + b', last, gsPath);
      ShiftedStep(ParseListing(a + [total] + b', gsPath), ParseListing(a + b', gsPath), |a|, last, gsPath, |a| + |b'|);
    }
  }

  /**
   * A `TOTAL:` line anywhere in the listing changes neither whether the parse succeeds nor
   * the map it builds; a failure after it is the same failure, one line further down.
   */
  lemma SummaryLineIgnored(a: seq<seq<string>>, total: seq<string>, b: seq<seq<string>>, gsPath: string)
    requires |total| > 0 && StartsWith(total[0], "TOTAL:")
    ensures var with := ParseListing(a + [total] + b, gsPath);
      var without := ParseListing(a + b, gsPath);
      && with.Ok? == without.Ok?
      && (with.Ok? ==> with.value == without.value)
      && (with.Err? ==>
            with.error == if without.error.line < |a| then without.error else AtLine(without.error, without.error.line + 1))
  {
    SummaryLineShifts(a, total, b, gsPath);
  }

  /**
   * Every well-formed object line of a listing that parses is listed: its URL, without
   * `gs_path + "/"`, is a key of the map.
   */
  lemma ObjectLineListed(lines: seq<seq<string>>, gsPath: string, i: nat)
    requires ParseListing(lines, gsPath).Ok? && i < |lines|
    requires |lines[i]| >= 2 && !StartsWith(lines[i][0], "TOTAL:") && ParseDecimal(lines[i][0]).Some?
    requires StartsWith(UrlOf(lines[i]), gsPath + "/") && !EndsWith(DropPrefix(UrlOf(lines[i]), gsPath + "/"), "/")
    ensures DropPrefix(UrlOf(lines[i]), gsPath + "/") in ParseListing(lines, gsPath).value
  {
    ParsedKeys(lines, gsPath);
    assert HasEntryFor(lines, gsPath, DropPrefix(UrlOf(lines[i]), gsPath + "/"), i);
  }
}
