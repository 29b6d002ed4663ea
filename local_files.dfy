/**
 * The local side of `status` in scripts/storage.py: the names in the working directory that
 * are compared against the remote listing, and their sizes.
 *
 * `os.listdir` becomes the sequence `names`; `os.path.isfile` and `os.path.getsize` become
 * the map `regular`, whose keys are the names of regular files and whose values their sizes.
 */
module LocalFiles {
  import opened Text

  /** The elements of `s` that `keep` accepts, in order. */
  function Filter(s: seq<string>, keep: string -> bool): (r: seq<string>)
    ensures |r| <= |s|
    ensures forall x :: x in r <==> x in s && keep(x)
  {
    if |s| == 0 then []
    else (if keep(s[0]) then [s[0]] else []) + Filter(s[1..], keep)
  }

  /** Not a hidden name: does not start with a dot. */
  predicate NotHidden(f: string)
  {
    !StartsWith(f, ".")
  }

  /** Not an editor backup: does not end with a tilde. */
  predicate NotBackup(f: string)
  {
    !EndsWith(f, "~")
  }

  /** The three successive list comprehensions of lines 60-62. */
  function Candidates(names: seq<string>, regular: map<string, nat>): (files: seq<string>)
    ensures forall f :: f in files <==> f in names && NotHidden(f) && NotBackup(f) && f in regular
  {
    var visible := Filter(names, NotHidden);
    var kept := Filter(visible, NotBackup);
    Filter(kept, (f: string) => f in regular)
  }

  /** `local` after the loop of lines 64-66 has stored the size of each name of `files`. */
  function SizesOf(files: seq<string>, regular: map<string, nat>): map<string, nat>
    requires forall i :: 0 <= i < |files| ==> files[i] in regular
  {
    if |files| == 0 then map[]
    else SizesOf(files[..|files| - 1], regular)[files[|files| - 1] := regular[files[|files| - 1]]]
  }

  /** The dictionary holds exactly the names of `files`, each with its size. */
  lemma {:induction false} SizesOfEntries(files: seq<string>, regular: map<string, nat>)
    requires forall i :: 0 <= i < |files| ==> files[i] in regular
    ensures forall f :: f in SizesOf(files, regular) <==> f in files
    ensures forall f :: f in SizesOf(files, regular) ==> SizesOf(files, regular)[f] == regular[f]
    decreases |files|
  {
    if |files| > 0 {
      var init := files[..|files| - 1];
      SizesOfEntries(init, regular);
      assert files == init + [files[|files| - 1]];
    }
  }

  /** The dictionary `local` of lines 64-66. */
  function LocalMap(names: seq<string>, regular: map<string, nat>): (local: map<string, nat>)
    ensures forall f :: f in local <==> f in names && NotHidden(f) && NotBackup(f) && f in regular
    ensures forall f :: f in local ==> local[f] == regular[f]
  {
    var files := Candidates(names, regular);
    assert forall i :: 0 <= i < |files| ==> files[i] in regular by {
      forall i | 0 <= i < |files| ensures files[i] in regular {
        assert files[i] in files;
      }
    }
    SizesOfEntries(files, regular);
    SizesOf(files, regular)
  }

  /** The loop of lines 64-66, filling `local` one name at a time. */
  method LocalSizes(names: seq<string>, regular: map<string, nat>) returns (local: map<string, nat>)
    ensures local == LocalMap(names, regular)
  {
    var files := Candidates(names, regular);
    assert forall i :: 0 <= i < |files| ==> files[i] in regular by {
      forall i | 0 <= i < |files| ensures files[i] in regular {
        assert files[i] in files;
      }
    }
    local := map[];
    for i := 0 to |files|
      invariant local == SizesOf(files[..i], regular)
    {
      assert files[..i + 1][..i] == files[..i];
      local := local[files[i] := regular[files[i]]];
    }
    assert files[..|files|] == files;
  }
}
