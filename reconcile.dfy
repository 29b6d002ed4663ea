/**
 * The comparison at the heart of `status` in scripts/storage.py: the sorted union of the
 * local and remote names, and the report rows built for each name.
 */
module Reconcile {
  import opened Base
  import opened Text

  // The terminal colour codes, kept as the exact strings the script prints.
  const Green: string := "\U{1B}[1;32m"
  const Blue: string := "\U{1B}[1;34m"
  const Red: string := "\U{1B}[1;31m"
  const Reset: string := "\U{1B}[0m"

  /** One element of `data`: colour, marker ("LR", "L-" or "-R"), size, name, closing code. */
  datatype Row = Row(colour: string, marker: string, size: nat, name: string, reset: string)

  // ---------------------------------------------------------------------------
  // The names: the keys of either dictionary, once each, in ascending order.
  // ---------------------------------------------------------------------------

  predicate IsLeast(m: string, s: set<string>)
  {
    m in s && forall y :: y in s ==> y == m || LexLess(m, y)
  }

  /** Every non-empty finite set of strings has a least element. */
  lemma {:induction false} LeastExists(s: set<string>)
    requires s != {}
    ensures exists m :: IsLeast(m, s)
    decreases s
  {
    var x :| x in s;
    if s != {x} {
      LeastExists(s - {x});
      var m :| IsLeast(m, s - {x});
      if LexLess(x, m) {
        forall y | y in s && y != x ensures LexLess(x, y) {
          if y != m {
            LexTransitive(x, m, y);
          }
        }
        assert IsLeast(x, s);
      } else {
        LexTotal(x, m);
        assert IsLeast(m, s);
      }
    } else {
      assert IsLeast(x, s);
    }
  }

  /** The sorted, duplicate-free enumeration of a set of names. */
  ghost function SortedKeys(s: set<string>): (t: seq<string>)
    ensures StrictlySorted(t)
    ensures forall x :: x in t <==> x in s
    decreases s
  {
    if s == {} then []
    else
      LeastExists(s);
      var m :| IsLeast(m, s);
      [m] + SortedKeys(s - {m})
  }

  /** A strictly sorted sequence is determined by its elements. */
  lemma {:induction false} SortedUnique(s: seq<string>, t: seq<string>)
    requires StrictlySorted(s) && StrictlySorted(t)
    requires forall x :: x in s <==> x in t
    ensures s == t
    decreases |s|
  {
    if |t| > 0 {
      assert t[0] in t;
    }
    if |s| == 0 {
    } else {
      assert s[0] in t;
      assert t[0] in t;
      assert s[0] == t[0] by {
        if s[0] != t[0] {
          var i :| 0 <= i < |s| && s[i] == t[0];
          var j :| 0 <= j < |t| && t[j] == s[0];
          assert i > 0 && j > 0;
          LexAsymmetric(s[0], s[i]);
        }
      }
      forall x ensures x in s[1..] <==> x in t[1..] {
        if x in s[1..] {
          var i :| 1 <= i < |s| && s[i] == x;
          LexIrreflexive(s[0]);
          assert s[i] in s;
          var j :| 0 <= j < |t| && t[j] == x;
          assert j != 0;
          assert t[1..][j - 1] == x;
        }
        if x in t[1..] {
          var j :| 1 <= j < |t| && t[j] == x;
          LexIrreflexive(t[0]);
          assert t[j] in t;
          var i :| 0 <= i < |s| && s[i] == x;
          assert i != 0;
          assert s[1..][i - 1] == x;
        }
      }
      SortedUnique(s[1..], t[1..]);
    }
  }

  /** `sorted(set(...))` of the two key sets, picking the least remaining name each time. */
  method SortedUnion(a: set<string>, b: set<string>) returns (names: seq<string>)
    ensures StrictlySorted(names)
    ensures forall f :: f in names <==> f in a || f in b
    ensures names == SortedKeys(a + b)
  {
    var rest := a + b;
    names := [];
    while rest != {}
      invariant StrictlySorted(names)
      invariant rest <= a + b
      invariant forall f :: f in names <==> f in a + b && f !in rest
      invariant forall x, y :: x in names && y in rest ==> LexLess(x, y)
      decreases rest
    {
      LeastExists(rest);
      var m :| IsLeast(m, rest);
      forall x, y | x in names && y in rest - {m} ensures LexLess(x, y) {}
      names := names + [m];
      rest := rest - {m};
    }
    SortedUnique(names, SortedKeys(a + b));
  }

  // ---------------------------------------------------------------------------
  // The rows: what each name amounts to, and the rows it yields.
  // ---------------------------------------------------------------------------

  /** How a name stands between the two sides. */
  datatype Presence =
    | Absent
    | Synced(size: nat)
    | LocalOnly(size: nat)
    | RemoteOnly(size: nat)
    | Differ(localSize: nat, remoteSize: nat)

  /** The size the dictionary holds for `f`, or `None` when it has no such key. */
  function Lookup(m: map<string, nat>, f: string): Option<nat>
  {
    if f in m then Some(m[f]) else None
  }

  /** The presence given the local size `l` and the remote size `r`, each possibly missing. */
  function Classify(l: Option<nat>, r: Option<nat>): Presence
  {
    match (l, r)
    case (Some(x), Some(y)) => if x == y then Synced(x) else Differ(x, y)
    case (Some(x), None) => LocalOnly(x)
    case (None, Some(y)) => RemoteOnly(y)
    case (None, None) => Absent
  }

  function PresenceOf(f: string, local: map<string, nat>, remote: map<string, nat>): Presence
  {
    Classify(Lookup(local, f), Lookup(remote, f))
  }

  /** The rows the report holds for a name, by presence. */
  function RowsFor(f: string, p: Presence): seq<Row>
  {
    match p
    case Absent => []
    case Synced(n) => [Row("", "LR", n, f, "")]
    case LocalOnly(n) => [Row(Green, "L-", n, f, Reset)]
    case RemoteOnly(n) => [Row(Blue, "-R", n, f, Reset)]
    case Differ(l, r) => [Row(Red, "L-", l, f, Reset), Row(Red, "-R", r, f, Reset)]
  }

  /** The list `data` once the loop has handled `names`. */
  function Report(names: seq<string>, local: map<string, nat>, remote: map<string, nat>): seq<Row>
    decreases |names|
  {
    if |names| == 0 then []
    else
      var f := names[|names| - 1];
      Report(names[..|names| - 1], local, remote) + RowsFor(f, PresenceOf(f, local, remote))
  }

  /** An entry of the list `tmp`: a marker and a size. */
  datatype Item = Item(marker: string, size: nat)

  /** The loop of lines 70-88. */
  method BuildRows(filenames: seq<string>, local: map<string, nat>, remote: map<string, nat>) returns (data: seq<Row>)
    ensures data == Report(filenames, local, remote)
  {
    data := [];
    for i := 0 to |filenames|
      invariant data == Report(filenames[..i], local, remote)
    {
      assert filenames[..i + 1][..i] == filenames[..i];
      var f := filenames[i];
      var l: Option<nat> := if f in local then Some(local[f]) else None;
      var r: Option<nat> := if f in remote then Some(remote[f]) else None;
      assert l == Lookup(local, f) && r == Lookup(remote, f);
      if l.Some? && r.Some? && l.value == r.value {
        data := data + [Row("", "LR", l.value, f, "")];
      } else {
        data := AppendMismatch(data, f, l, r);
      }
    }
    assert filenames[..|filenames|] == filenames;
  }

  /**
   * Lines 77-88: the rows of a name whose two sides are not the same size, built from the
   * lists `tmp` and `col` as the script builds them.
   */
  method AppendMismatch(data0: seq<Row>, f: string, l: Option<nat>, r: Option<nat>) returns (data: seq<Row>)
    requires !(l.Some? && r.Some? && l.value == r.value)
    ensures data == data0 + RowsFor(f, Classify(l, r))
  {
    var tmp: seq<Item> := [];
    var col: seq<string> := [];
    if l.Some? {
      tmp := tmp + [Item("L-", l.value)];
      col := col + [Green];
    }
    if r.Some? {
      tmp := tmp + [Item("-R", r.value)];
      col := col + [Blue];
    }
    if |col| == 2 {
      col := [Red];
    }
    ghost var expected := RowsFor(f, Classify(l, r));
    assert |tmp| == |expected| && (|tmp| > 0 ==> |col| > 0);
    assert forall k :: 0 <= k < |tmp| ==> expected[k] == Row(col[0], tmp[k].marker, tmp[k].size, f, Reset);
    data := data0;
    for j := 0 to |tmp|
      invariant data == data0 + expected[..j]
    {
      assert expected[..j + 1] == expected[..j] + [expected[j]];
      data := data + [Row(col[0], tmp[j].marker, tmp[j].size, f, Reset)];
    }
    assert expected[..|tmp|] == expected;
  }

  // ---------------------------------------------------------------------------
  // What the report says about each name.
  // ---------------------------------------------------------------------------

  /** The rows of a report that name `f`, in report order. */
  function RowsNamed(rows: seq<Row>, f: string): (r: seq<Row>)
    ensures forall x :: x in r <==> x in rows && x.name == f
  {
    if |rows| == 0 then []
    else (if rows[0].name == f then [rows[0]] else []) + RowsNamed(rows[1..], f)
  }

  lemma {:induction false} RowsNamedAppend(a: seq<Row>, b: seq<Row>, f: string)
    ensures RowsNamed(a + b, f) == RowsNamed(a, f) + RowsNamed(b, f)
    decreases |a|
  {
    if |a| == 0 {
      assert a + b == b;
    } else {
      assert (a + b)[1..] == a[1..] + b;
      RowsNamedAppend(a[1..], b, f);
    }
  }

  lemma RowsForNames(g: string, p: Presence)
    ensures forall x :: x in RowsFor(g, p) ==> x.name == g
  {
  }

  lemma {:induction false} RowsNamedNone(rows: seq<Row>, f: string)
    requires forall i :: 0 <= i < |rows| ==> rows[i].name != f
    ensures RowsNamed(rows, f) == []
    decreases |rows|
  {
    if |rows| > 0 {
      RowsNamedNone(rows[1..], f);
    }
  }

  lemma RowsNamedOfRowsFor(g: string, p: Presence, f: string)
    ensures RowsNamed(RowsFor(g, p), f) == if g == f then RowsFor(g, p) else []
  {
    var rows := RowsFor(g, p);
    if g != f {
      RowsForNames(g, p);
      RowsNamedNone(rows, f);
    } else if |rows| == 2 {
      assert rows[1..] == [rows[1]];
      assert rows[1..][1..] == [];
      assert RowsNamed(rows[1..], f) == [rows[1]];
    }
  }

  predicate Distinct(names: seq<string>)
  {
    forall i, j :: 0 <= i < j < |names| ==> names[i] != names[j]
  }

  /** The names `sorted` gives are free of duplicates. */
  lemma StrictlySortedDistinct(names: seq<string>)
    requires StrictlySorted(names)
    ensures Distinct(names)
  {
    forall i, j | 0 <= i < j < |names| ensures names[i] != names[j] {
      if names[i] == names[j] {
        LexIrreflexive(names[i]);
      }
    }
  }

  /** Over duplicate-free names, the rows naming `f` are exactly the rows of `f`'s presence. */
  lemma {:induction false} ReportRowsNamed(names: seq<string>, local: map<string, nat>, remote: map<string, nat>, f: string)
    requires Distinct(names)
    ensures RowsNamed(Report(names, local, remote), f) ==
            if f in names then RowsFor(f, PresenceOf(f, local, remote)) else []
    decreases |names|
  {
    if |names| > 0 {
      var init, g := names[..|names| - 1], names[|names| - 1];
      assert Distinct(init) by {
        forall i, j | 0 <= i < j < |init| ensures init[i] != init[j] {
          assert init[i] == names[i] && init[j] == names[j];
        }
      }
      assert f in names <==> f in init || f == g by {
        assert names == init + [g];
      }
      ReportRowsNamed(init, local, remote, f);
      var p := PresenceOf(g, local, remote);
      RowsNamedAppend(Report(init, local, remote), RowsFor(g, p), f);
      RowsNamedOfRowsFor(g, p, f);
      if g == f {
        forall i | 0 <= i < |init| ensures init[i] != f {
          assert init[i] == names[i];
        }
      }
    }
  }

  /**
   * Over the union of the two key sets, without duplicates:
   *  - equal sizes on both sides give one uncoloured "LR" row;
   *  - a name on one side only gives one green "L-" or one blue "-R" row;
   *  - differing sizes give two red rows, "L-" with the local size then "-R" with the remote size;
   * and red is neither of the one-side colours.
   */
  lemma RowsPerName(names: seq<string>, local: map<string, nat>, remote: map<string, nat>, f: string)
    requires Distinct(names)
    requires forall g :: g in names <==> g in local || g in remote
    ensures var rows := RowsNamed(Report(names, local, remote), f);
      && (f in local && f in remote && local[f] == remote[f] ==> rows == [Row("", "LR", local[f], f, "")])
      && (f in local && f !in remote ==> rows == [Row(Green, "L-", local[f], f, Reset)])
      && (f !in local && f in remote ==> rows == [Row(Blue, "-R", remote[f], f, Reset)])
      && (f in local && f in remote && local[f] != remote[f] ==>
            rows == [Row(Red, "L-", local[f], f, Reset), Row(Red, "-R", remote[f], f, Reset)])
      && (f !in local && f !in remote ==> rows == [])
    ensures Red != Green && Red != Blue
  {
    ReportRowsNamed(names, local, remote, f);
  }

  /** Every row names a member of `names`, and every name present on some side has a row. */
  lemma {:induction false} ReportCoverage(names: seq<string>, local: map<string, nat>, remote: map<string, nat>)
    requires Distinct(names)
    ensures forall x :: x in Report(names, local, remote) ==> x.name in names
    ensures forall f :: f in names && (f in local || f in remote) ==>
      exists x :: x in Report(names, local, remote) && x.name == f
  {
    var rows := Report(names, local, remote);
    forall x | x in rows ensures x.name in names {
      ReportRowsNamed(names, local, remote, x.name);
      assert x in RowsNamed(rows, x.name);
    }
    forall f | f in names && (f in local || f in remote)
      ensures exists x :: x in rows && x.name == f
    {
      ReportRowsNamed(names, local, remote, f);
      assert RowsFor(f, PresenceOf(f, local, remote))[0] in RowsNamed(rows, f);
    }
  }

  /** Rows whose names never decrease: equal names or in ascending order. */
  predicate NamesAscending(rows: seq<Row>)
  {
    forall i, j :: 0 <= i < j < |rows| ==> rows[i].name == rows[j].name || LexLess(rows[i].name, rows[j].name)
  }

  lemma {:induction false} ReportNamesIn(names: seq<string>, local: map<string, nat>, remote: map<string, nat>)
    ensures forall i :: 0 <= i < |Report(names, local, remote)| ==> Report(names, local, remote)[i].name in names
    decreases |names|
  {
    if |names| > 0 {
      var init, g := names[..|names| - 1], names[|names| - 1];
      ReportNamesIn(init, local, remote);
      RowsForNames(g, PresenceOf(g, local, remote));
      var rows := Report(names, local, remote);
      forall i | 0 <= i < |rows| ensures rows[i].name in names {
        if i < |Report(init, local, remote)| {
          assert rows[i] == Report(init, local, remote)[i];
          assert rows[i].name in init;
        } else {
          assert rows[i] in RowsFor(g, PresenceOf(g, local, remote));
        }
      }
    }
  }

  /** Sorted names give rows in ascending filename order. */
  lemma {:induction false} ReportAscending(names: seq<string>, local: map<string, nat>, remote: map<string, nat>)
    requires StrictlySorted(names)
    ensures NamesAscending(Report(names, local, remote))
    decreases |names|
  {
    if |names| > 0 {
      var init, g := names[..|names| - 1], names[|names| - 1];
      var head := Report(init, local, remote);
      var tail := RowsFor(g, PresenceOf(g, local, remote));
      ReportAscending(init, local, remote);
      ReportNamesIn(init, local, remote);
      RowsForNames(g, PresenceOf(g, local, remote));
      var rows := head + tail;
      forall i, j | 0 <= i < j < |rows| ensures rows[i].name == rows[j].name || LexLess(rows[i].name, rows[j].name) {
        if j < |head| {
          assert rows[i] == head[i] && rows[j] == head[j];
        } else if i >= |head| {
          assert rows[i] in tail && rows[j] in tail;
        } else {
          assert rows[i] == head[i] && rows[i].name in init;
          assert rows[j] in tail;
          var k :| 0 <= k < |init| && init[k] == rows[i].name;
          assert names[k] == init[k];
        }
      }
    }
  }

  /** In rows with names in ascending order, the rows for one name are contiguous. */
  lemma RowsContiguous(rows: seq<Row>)
    requires NamesAscending(rows)
    ensures forall i, j, k :: 0 <= i < j < k < |rows| && rows[i].name == rows[k].name ==>
      rows[j].name == rows[i].name
  {
    forall i, j, k | 0 <= i < j < k < |rows| && rows[i].name == rows[k].name
      ensures rows[j].name == rows[i].name
    {
      if rows[j].name != rows[i].name {
        assert LexLess(rows[i].name, rows[j].name) && LexLess(rows[j].name, rows[k].name);
        LexAsymmetric(rows[i].name, rows[j].name);
      }
    }
  }
}
