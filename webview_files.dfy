/** The `/api/files` listing of the web viewer: the entries of a directory
    below the base directory, each with its path relative to the base,
    sorted in place with every directory before every file and by name
    within each group. The directory listing is a parameter: None when
    `read_dir` fails, and an entry whose metadata cannot be read carries
    no kind. */
module WebviewFiles {
  import opened Wrappers
  import opened Text

  datatype FileEntry = FileEntry(name: string, path: string, isDir: bool)

  /** One `read_dir` entry: its file name and, when its metadata could be
      read, whether it is a directory. */
  datatype DirEntry = DirEntry(name: string, kind: Option<bool>)

  /** The path of an entry relative to the base directory. */
  function EntryPath(requested: string, name: string): (p: string)
    ensures EndsWith(p, name)
    ensures requested == "" ==> p == name
    ensures requested != "" ==> StartsWith(p, requested + "/") && |p| == |requested| + 1 + |name|
  {
    if requested == "" then name else requested + "/" + name
  }

  /** Splitting the relative path at '/' gives the requested path's
      components followed by the entry's name. */
  lemma EntryPathSplit(requested: string, name: string)
    requires requested != "" && '/' !in name
    ensures Split(EntryPath(requested, name), '/') == Split(requested, '/') + [name]
  {
    var parts := Split(requested, '/') + [name];
    var n := |parts|;
    JoinSnoc(Split(requested, '/'), "/", name);
    JoinSplit(requested, '/');
    assert Join(parts, "/") == EntryPath(requested, name);
    forall k | 0 <= k < n ensures '/' !in parts[k] {
      if k < n - 1 { assert parts[k] == Split(requested, '/')[k]; }
    }
    SplitJoin(parts, '/');
  }

  lemma {:induction false} JoinSnoc(parts: seq<string>, sep: string, last: string)
    requires |parts| >= 1
    ensures Join(parts + [last], sep) == Join(parts, sep) + sep + last
  {
    if |parts| > 1 {
      assert (parts + [last])[1..] == parts[1..] + [last];
      JoinSnoc(parts[1..], sep, last);
    } else {
      assert (parts + [last])[1..] == [last];
    }
  }

  /** The entries pushed, in `read_dir` order: those whose metadata could
      be read. */
  function Collected(requested: string, listing: seq<DirEntry>): (es: seq<FileEntry>)
    ensures |es| <= |listing|
  {
    if |listing| == 0 then []
    else
      var d := listing[|listing| - 1];
      Collected(requested, listing[..|listing| - 1])
      + (if d.kind.Some? then [FileEntry(d.name, EntryPath(requested, d.name), d.kind.value)] else [])
  }

  // ---------------------------------------------------------------------
  // The comparator of `sort_by`

  /** Rust's `String` ordering: lexicographic by character. */
  predicate NameLess(a: string, b: string)
    decreases |a|
  {
    if |a| == 0 then |b| > 0
    else if |b| == 0 then false
    else if a[0] != b[0] then a[0] < b[0]
    else NameLess(a[1..], b[1..])
  }

  lemma {:induction false} NameLessIrreflexive(a: string)
    ensures !NameLess(a, a)
    decreases |a|
  {
    if |a| > 0 { NameLessIrreflexive(a[1..]); }
  }

  lemma {:induction false} NameLessTransitive(a: string, b: string, c: string)
    requires NameLess(a, b) && NameLess(b, c)
    ensures NameLess(a, c)
    decreases |a|
  {
    if |a| > 0 && |b| > 0 && |c| > 0 && a[0] == b[0] && b[0] == c[0] {
      NameLessTransitive(a[1..], b[1..], c[1..]);
    }
  }

  lemma {:induction false} NameLessTotal(a: string, b: string)
    ensures NameLess(a, b) || NameLess(b, a) || a == b
    decreases |a|
  {
    if |a| > 0 && |b| > 0 && a[0] == b[0] {
      NameLessTotal(a[1..], b[1..]);
      if a[1..] == b[1..] {
        assert a == [a[0]] + a[1..] && b == [b[0]] + b[1..];
      }
    }
  }

  /** `a` sorts strictly before `b`: a directory before a file, otherwise
      by name. */
  predicate Less(a: FileEntry, b: FileEntry)
  {
    (a.isDir && !b.isDir) || (a.isDir == b.isDir && NameLess(a.name, b.name))
  }

  /** `a` may come before `b`. */
  predicate Le(a: FileEntry, b: FileEntry)
  {
    !Less(b, a)
  }

  lemma LeTotal(a: FileEntry, b: FileEntry)
    ensures Le(a, b) || Le(b, a)
  {
    if Less(a, b) && Less(b, a) {
      NameLessTransitive(a.name, b.name, a.name);
      NameLessIrreflexive(a.name);
    }
  }

  lemma LeTransitive(a: FileEntry, b: FileEntry, c: FileEntry)
    requires Le(a, b) && Le(b, c)
    ensures Le(a, c)
  {
    if Less(c, a) {
      NameLessTotal(a.name, b.name);
      if Less(a, b) {
        if c.isDir == a.isDir && a.isDir == b.isDir {
          NameLessTransitive(c.name, a.name, b.name);
        }
      }
    }
  }

  predicate Sorted(s: seq<FileEntry>)
  {
    forall i, j :: 0 <= i < j < |s| ==> Le(s[i], s[j])
  }

  /** Inserting `x` into `s` from the right: it moves left past every entry
      it sorts strictly before, as a stable insertion does. */
  function InsertFromRight(s: seq<FileEntry>, x: FileEntry): seq<FileEntry>
  {
    if |s| == 0 || !Less(x, s[|s| - 1]) then s + [x]
    else InsertFromRight(s[..|s| - 1], x) + [s[|s| - 1]]
  }

  /** Stable insertion sort, the specification of the in-place sort. */
  function SortSeq(s: seq<FileEntry>): seq<FileEntry>
  {
    if |s| == 0 then [] else InsertFromRight(SortSeq(s[..|s| - 1]), s[|s| - 1])
  }

  lemma {:induction false} InsertFromRightPermutes(s: seq<FileEntry>, x: FileEntry)
    ensures multiset(InsertFromRight(s, x)) == multiset(s) + multiset{x}
  {
    if |s| > 0 && Less(x, s[|s| - 1]) {
      InsertFromRightPermutes(s[..|s| - 1], x);
      assert s == s[..|s| - 1] + [s[|s| - 1]];
    }
  }

  lemma {:induction false} InsertFromRightSorted(s: seq<FileEntry>, x: FileEntry)
    requires Sorted(s)
    ensures Sorted(InsertFromRight(s, x))
  {
    var r := InsertFromRight(s, x);
    if |s| == 0 {
    } else if !Less(x, s[|s| - 1]) {
      forall i, j | 0 <= i < j < |r| ensures Le(r[i], r[j]) {
        if j == |s| && i < |s| - 1 {
          LeTransitive(s[i], s[|s| - 1], x);
        }
      }
    } else {
      var init := s[..|s| - 1];
      var last := s[|s| - 1];
      InsertFromRightSorted(init, x);
      var r0 := InsertFromRight(init, x);
      InsertFromRightPermutes(init, x);
      forall e | e in r0 ensures Le(e, last) {
        assert e in multiset(r0);
        if e != x {
          assert e in multiset(init);
          var i :| 0 <= i < |init| && init[i] == e;
        } else {
          LeTotal(x, last);
        }
      }
      forall i, j | 0 <= i < j < |r| ensures Le(r[i], r[j]) {
        if j == |r| - 1 {
          assert r[i] in r0;
        } else {
          assert r[i] == r0[i] && r[j] == r0[j];
        }
      }
    }
  }

  /** The sorted listing is ordered and holds exactly the collected
      entries. */
  lemma {:induction false} SortSeqCorrect(s: seq<FileEntry>)
    ensures Sorted(SortSeq(s))
    ensures multiset(SortSeq(s)) == multiset(s)
  {
    if |s| > 0 {
      SortSeqCorrect(s[..|s| - 1]);
      InsertFromRightSorted(SortSeq(s[..|s| - 1]), s[|s| - 1]);
      InsertFromRightPermutes(SortSeq(s[..|s| - 1]), s[|s| - 1]);
      assert s == s[..|s| - 1] + [s[|s| - 1]];
    }
  }

  /** In a sorted listing every directory precedes every file, and entries
      of one kind appear by name. */
  lemma SortedMeansDirsFirst(s: seq<FileEntry>)
    requires Sorted(s)
    ensures forall i, j :: 0 <= i < |s| && 0 <= j < |s| && s[i].isDir && !s[j].isDir ==> i < j
    ensures forall i, j :: 0 <= i < j < |s| && s[i].isDir == s[j].isDir ==> !NameLess(s[j].name, s[i].name)
  {
  }

  // ---------------------------------------------------------------------
  // The handler

  /** One step of the insertion: when `x` sorts before `p[j - 1]`, that
      entry moves behind the insertion point. */
  lemma InsertFromRightStep(p: seq<FileEntry>, x: FileEntry, j: int)
    requires 0 < j <= |p| && Less(x, p[j - 1])
    ensures InsertFromRight(p[..j], x) + p[j..] == InsertFromRight(p[..j - 1], x) + p[j - 1..]
  {
    assert p[..j][..j - 1] == p[..j - 1];
    assert p[j - 1..] == [p[j - 1]] + p[j..];
  }

  /** The array, as a sequence, part way through moving `x` left from
      index `i`: the first `j` entries of `p` in place, a hole at `j`, the
      rest of `p` moved one step right, and `rest` untouched. */
  ghost predicate Shifted(s: seq<FileEntry>, p: seq<FileEntry>, rest: seq<FileEntry>, i: int, j: int)
  {
    && 0 <= j <= i && |p| == i && |s| == i + 1 + |rest|
    && s[..j] == p[..j] && s[j + 1..i + 1] == p[j..] && s[i + 1..] == rest
  }

  lemma ShiftedStep(s: seq<FileEntry>, p: seq<FileEntry>, rest: seq<FileEntry>, i: int, j: int)
    requires Shifted(s, p, rest, i, j) && j > 0
    ensures Shifted(s[j := s[j - 1]], p, rest, i, j - 1)
  {
    var t := s[j := s[j - 1]];
    assert s[j - 1] == p[j - 1];
    assert t[j..i + 1] == [p[j - 1]] + p[j..];
    assert p[j - 1..] == [p[j - 1]] + p[j..];
  }

  lemma ShiftedDone(s: seq<FileEntry>, p: seq<FileEntry>, rest: seq<FileEntry>, i: int, j: int, x: FileEntry)
    requires Shifted(s, p, rest, i, j)
    ensures s[j := x][..i + 1] == p[..j] + [x] + p[j..] && s[j := x][i + 1..] == rest
  {
    var t := s[j := x];
    assert t[..j] == p[..j] && t[j + 1..i + 1] == p[j..];
    assert t[..i + 1] == t[..j] + [x] + t[j + 1..i + 1];
  }

  /** The inner loop of an insertion sort: move `a[i]` left past every
      entry it sorts strictly before. */
  method InsertLast(a: array<FileEntry>, i: int)
    requires 0 <= i < a.Length
    modifies a
    ensures a[..i + 1] == InsertFromRight(old(a[..i]), old(a[i]))
    ensures a[i + 1..] == old(a[i + 1..])
  {
    ghost var p := a[..i];
    ghost var rest := a[i + 1..];
    var x := a[i];
    var j := i;
    assert a[..][..i] == p && a[..][i + 1..] == rest;
    while j > 0 && Less(x, a[j - 1])
      invariant Shifted(a[..], p, rest, i, j)
      invariant InsertFromRight(p, x) == InsertFromRight(p[..j], x) + p[j..]
    {
      InsertFromRightStep(p, x, j);
      ShiftedStep(a[..], p, rest, i, j);
      a[j] := a[j - 1];
      j := j - 1;
    }
    ShiftedDone(a[..], p, rest, i, j, x);
    a[j] := x;
    assert a[..][..i + 1] == a[..i + 1] && a[..][i + 1..] == a[i + 1..];
  }

  /** `entries.sort_by(...)` in place. */
  method SortEntries(a: array<FileEntry>)
    modifies a
    ensures a[..] == SortSeq(old(a[..]))
  {
    ghost var s := a[..];
    var i := 0;
    while i < a.Length
      invariant 0 <= i <= a.Length
      invariant a[..i] == SortSeq(s[..i])
      invariant a[i..] == s[i..]
    {
      assert s[..i + 1][..i] == s[..i];
      InsertLast(a, i);
      i := i + 1;
    }
    assert s[..i] == s;
  }

  /** The `read_dir` loop: push every entry whose metadata could be read. */
  method CollectEntries(requested: string, dir: seq<DirEntry>) returns (pushed: seq<FileEntry>)
    ensures pushed == Collected(requested, dir)
  {
    pushed := [];
    var i := 0;
    while i < |dir|
      invariant 0 <= i <= |dir|
      invariant pushed == Collected(requested, dir[..i])
    {
      assert dir[..i + 1][..i] == dir[..i];
      var d := dir[i];
      if d.kind.Some? {
        pushed := pushed + [FileEntry(d.name, EntryPath(requested, d.name), d.kind.value)];
      }
      i := i + 1;
    }
    assert dir[..i] == dir;
  }

  /** `list_files` for a permitted directory: push the readable entries,
      then sort them. */
  method ListFiles(requested: string, listing: Option<seq<DirEntry>>) returns (entries: seq<FileEntry>)
    ensures listing.None? ==> entries == []
    ensures listing.Some? ==> entries == SortSeq(Collected(requested, listing.value))
  {
    var pushed: seq<FileEntry> := [];
    if listing.Some? {
      pushed := CollectEntries(requested, listing.value);
    }
    var a := new FileEntry[|pushed|](k requires 0 <= k < |pushed| => pushed[k]);
    assert a[..] == pushed;
    SortEntries(a);
    entries := a[..];
  }

  /** What the listing answers with is sorted, directories first, and is a
      rearrangement of the collected entries. */
  lemma ListingOrdered(requested: string, listing: seq<DirEntry>)
    ensures var r := SortSeq(Collected(requested, listing));
      && Sorted(r)
      && multiset(r) == multiset(Collected(requested, listing))
      && (forall i, j :: 0 <= i < |r| && 0 <= j < |r| && r[i].isDir && !r[j].isDir ==> i < j)
  {
    var r := SortSeq(Collected(requested, listing));
    SortSeqCorrect(Collected(requested, listing));
    SortedMeansDirsFirst(r);
  }
}
