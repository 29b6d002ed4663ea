/** The argument vectors `push` and `pull` of scripts/storage.py hand to `gsutil cp`. */
module Transfer {
  import opened Base
  import opened Text
  import Listing

  /** The assertion that at least one name is given fails. */
  datatype TransferError = NoFilenames

  /** A copy request: the sources, then one destination. */
  datatype CopyRequest = CopyRequest(sources: seq<string>, destination: string)

  /** How `gsutil cp SRC... DST` reads its argument vector. */
  function ReadCopyArgs(args: seq<string>): Option<CopyRequest>
  {
    if |args| >= 4 && args[0] == "gsutil" && args[1] == "cp"
    then Some(CopyRequest(args[2..|args| - 1], args[|args| - 1]))
    else None
  }

  /** `push`: copy the named local files into `gs_path + "/"`. */
  function PushArgs(filenames: seq<string>, gsPath: string): (r: Result<seq<string>, TransferError>)
    ensures r.Err? <==> |filenames| == 0
    ensures r.Ok? ==> |r.value| == |filenames| + 3
    ensures r.Ok? ==> ReadCopyArgs(r.value) == Some(CopyRequest(filenames, gsPath + "/"))
  {
    if |filenames| == 0 then Err(NoFilenames)
    else
      var args := ["gsutil", "cp"] + filenames + [gsPath + "/"];
      assert args[2..|args| - 1] == filenames;
      Ok(args)
  }

  /** Each name prefixed with the remote path and a slash, line 111. */
  function RemotePaths(filenames: seq<string>, gsPath: string): (r: seq<string>)
    ensures |r| == |filenames|
    ensures forall i :: 0 <= i < |r| ==>
      StartsWith(r[i], gsPath + "/") && DropPrefix(r[i], gsPath + "/") == filenames[i]
  {
    var r := seq(|filenames|, i requires 0 <= i < |filenames| => gsPath + "/" + filenames[i]);
    assert forall i :: 0 <= i < |r| ==> StartsWith(r[i], gsPath + "/") && DropPrefix(r[i], gsPath + "/") == filenames[i] by {
      forall i | 0 <= i < |r|
        ensures StartsWith(r[i], gsPath + "/") && DropPrefix(r[i], gsPath + "/") == filenames[i]
      {
        DropPrefixOfConcat(gsPath + "/", filenames[i]);
      }
    }
    r
  }

  /** `pull`: copy the named remote objects into the working directory. */
  function PullArgs(filenames: seq<string>, gsPath: string): (r: Result<seq<string>, TransferError>)
    ensures r.Err? <==> |filenames| == 0
    ensures r.Ok? ==> |r.value| == |filenames| + 3
    ensures r.Ok? ==> ReadCopyArgs(r.value) == Some(CopyRequest(RemotePaths(filenames, gsPath), "."))
  {
    if |filenames| == 0 then Err(NoFilenames)
    else
      var sources := RemotePaths(filenames, gsPath);
      var args := ["gsutil", "cp"] + sources + ["."];
      assert args[2..|args| - 1] == sources;
      Ok(args)
  }

  /**
   * Pulling a name that the listing reported asks for exactly the object URL that the
   * listing printed for it: stripping and re-adding `gs_path + "/"` are inverse.
   */
  lemma PullAsksForListedObject(lines: seq<seq<string>>, gsPath: string, k: string)
    requires Listing.ParseListing(lines, gsPath).Ok? && k in Listing.ParseListing(lines, gsPath).value
    ensures PullArgs([k], gsPath).Ok?
    ensures exists i :: (0 <= i < |lines| && |lines[i]| >= 2 &&
                         PullArgs([k], gsPath).value[2] == Listing.UrlOf(lines[i]))
  {
    Listing.KeysAreStrippedUrls(lines, gsPath, k);
    var i :| 0 <= i < |lines| && |lines[i]| >= 2
             && StartsWith(Listing.UrlOf(lines[i]), gsPath + "/")
             && gsPath + "/" + k == Listing.UrlOf(lines[i])
             && ParseDecimal(lines[i][0]).Some?;
    var args := PullArgs([k], gsPath).value;
    assert args[2] == RemotePaths([k], gsPath)[0];
    assert RemotePaths([k], gsPath)[0] == gsPath + "/" + k;
  }
}
