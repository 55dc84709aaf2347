/** rename_files.py: renaming every entry of a directory whose name starts
    with `prefix` so that it starts with `new_prefix` instead. */
module RenameFiles {
  import opened Wrappers
  import opened PyText

  /** The file a directory entry names; renaming moves it to another name. */
  type FileId = nat

  /** `new_prefix + filename[len(prefix):]`; Python's slice is empty when the
      name is shorter than the prefix. */
  function NewName(name: string, prefix: string, newPrefix: string): string {
    newPrefix + (if |prefix| <= |name| then name[|prefix|..] else [])
  }

  /** For a selected name the part after the prefix is kept, so the new
      name starts with `new_prefix` and has the expected length. */
  lemma NewNameKeepsSuffix(name: string, prefix: string, newPrefix: string)
    requires StartsWith(name, prefix)
    ensures var r := NewName(name, prefix, newPrefix);
            StartsWith(r, newPrefix) && r[|newPrefix|..] == name[|prefix|..] &&
            |r| == |newPrefix| + |name| - |prefix|
  {
    var r := NewName(name, prefix, newPrefix);
    assert r[..|newPrefix|] == newPrefix;
  }

  /** Renaming back with the prefixes swapped recovers the original name. */
  lemma NewNameRoundTrip(name: string, prefix: string, newPrefix: string)
    requires StartsWith(name, prefix)
    ensures NewName(NewName(name, prefix, newPrefix), newPrefix, prefix) == name
  {
    var r := NewName(name, prefix, newPrefix);
    NewNameKeepsSuffix(name, prefix, newPrefix);
    assert name == prefix + name[|prefix|..] by { assert name[..|prefix|] == prefix; }
  }

  /** Distinct selected names get distinct new names. */
  lemma NewNameInjective(a: string, b: string, prefix: string, newPrefix: string)
    requires StartsWith(a, prefix) && StartsWith(b, prefix)
    requires NewName(a, prefix, newPrefix) == NewName(b, prefix, newPrefix)
    ensures a == b
  {
    NewNameRoundTrip(a, prefix, newPrefix);
    NewNameRoundTrip(b, prefix, newPrefix);
  }

  /** `[f for f in os.listdir(directory) if f.startswith(prefix)]`: the
      matching names, in listing order. */
  function Selected(listing: seq<string>, prefix: string): (r: seq<string>)
    ensures |r| <= |listing|
    ensures forall n :: n in r <==> n in listing && StartsWith(n, prefix)
  {
    if listing == [] then []
    else (if StartsWith(listing[0], prefix) then [listing[0]] else []) + Selected(listing[1..], prefix)
  }

  /** Selection never repeats a name the listing does not repeat. */
  lemma {:induction false} SelectedDistinct(listing: seq<string>, prefix: string)
    requires Distinct(listing)
    ensures Distinct(Selected(listing, prefix))
  {
    if listing != [] {
      SelectedDistinct(listing[1..], prefix);
      var rest := Selected(listing[1..], prefix);
      assert listing[0] !in listing[1..];
      assert listing[0] !in rest;
    }
  }

  predicate Distinct(s: seq<string>) {
    forall i, j :: 0 <= i < j < |s| ==> s[i] != s[j]
  }

  /** What the loop reports: each failed rename, or the missing directory. */
  datatype Report = RenameError(name: string) | DirectoryNotFound

  /** One error line per failed name, in order: a name is reported exactly
      when its rename failed, and the directory is never reported missing. */
  function ErrorReports(failed: seq<string>): (r: seq<Report>)
    ensures |r| == |failed|
    ensures forall n :: RenameError(n) in r <==> n in failed
    ensures DirectoryNotFound !in r
  {
    var r := seq(|failed|, i requires 0 <= i < |failed| => RenameError(failed[i]));
    assert forall n :: n in failed ==> RenameError(n) in r by {
      forall n | n in failed ensures RenameError(n) in r {
        var i :| 0 <= i < |failed| && failed[i] == n;
        assert r[i] == RenameError(n);
      }
    }
    r
  }

  /** Reporting one more failure appends one error line. */
  lemma ErrorReportsAppend(failed: seq<string>, n: string)
    ensures ErrorReports(failed + [n]) == ErrorReports(failed) + [RenameError(n)]
  {
  }

  /** The directory as the loop sees it after some renames: its entries and
      the names whose rename failed so far. */
  datatype Progress = Progress(entries: map<string, FileId>, failed: seq<string>)

  /** `os.rename(src, dst)` within a directory: moves the file when `src`
      exists and the system allows it, replacing whatever `dst` named;
      otherwise raises `OSError` and changes nothing. */
  function RenameEntry(entries: map<string, FileId>, refused: set<string>, src: string, dst: string)
    : Option<map<string, FileId>>
  {
    if src in entries && src !in refused then Some(entries - {src} + map[dst := entries[src]])
    else None
  }

  /** The loop body for one selected name: rename, or report and go on. */
  function Step(p: Progress, refused: set<string>, name: string, prefix: string, newPrefix: string): Progress {
    match RenameEntry(p.entries, refused, name, NewName(name, prefix, newPrefix))
    case Some(e) => Progress(e, p.failed)
    case None => Progress(p.entries, p.failed + [name])
  }

  /** The loop over the selected names, in order. */
  function RenameAll(p: Progress, refused: set<string>, names: seq<string>, prefix: string, newPrefix: string)
    : Progress
    decreases |names|
  {
    if names == [] then p
    else RenameAll(Step(p, refused, names[0], prefix, newPrefix), refused, names[1..], prefix, newPrefix)
  }

  /** Processing names in two batches is processing them in one: the loop
      state carries over unchanged from one file to the next. */
  lemma {:induction false} RenameAllSplit(p: Progress, refused: set<string>, a: seq<string>, b: seq<string>,
                                         prefix: string, newPrefix: string)
    ensures RenameAll(p, refused, a + b, prefix, newPrefix) ==
            RenameAll(RenameAll(p, refused, a, prefix, newPrefix), refused, b, prefix, newPrefix)
    decreases |a|
  {
    if a != [] {
      assert (a + b)[0] == a[0] && (a + b)[1..] == a[1..] + b;
      RenameAllSplit(Step(p, refused, a[0], prefix, newPrefix), refused, a[1..], b, prefix, newPrefix);
    } else {
      assert a + b == b;
    }
  }

  /** A failure never stops the loop: every selected name the system refuses
      is reported, and only selected names are reported. */
  lemma {:induction false} FailuresReported(p: Progress, refused: set<string>, names: seq<string>,
                                            prefix: string, newPrefix: string)
    ensures var r := RenameAll(p, refused, names, prefix, newPrefix);
            (forall n :: n in names && n in refused ==> n in r.failed) &&
            (forall n :: n in r.failed ==> n in p.failed || n in names) &&
            (forall n :: n in p.failed ==> n in r.failed)
    decreases |names|
  {
    if names != [] {
      var q := Step(p, refused, names[0], prefix, newPrefix);
      assert q.failed == p.failed || q.failed == p.failed + [names[0]];
      assert names[0] in refused ==> names[0] in q.failed;
      FailuresReported(q, refused, names[1..], prefix, newPrefix);
      assert forall n :: n in names[1..] ==> n in names;
    }
  }

  /** The names that are in `s`, in order. */
  function Within(names: seq<string>, s: set<string>): (r: seq<string>)
    ensures forall n :: n in r <==> n in names && n in s
  {
    if names == [] then []
    else (if names[0] in s then [names[0]] else []) + Within(names[1..], s)
  }

  /** The names that are not in `s`, in order. */
  function Outside(names: seq<string>, s: set<string>): (r: seq<string>)
    ensures forall n :: n in r <==> n in names && n !in s
  {
    if names == [] then []
    else (if names[0] in s then [] else [names[0]]) + Outside(names[1..], s)
  }

  /** A refused rename changes nothing and the loop goes on: the directory
      ends up as if the refused names had never been selected. */
  lemma {:induction false} RefusedNamesSkipped(p: Progress, q: Progress, refused: set<string>, names: seq<string>,
                                               prefix: string, newPrefix: string)
    requires p.entries == q.entries
    ensures RenameAll(p, refused, names, prefix, newPrefix).entries ==
            RenameAll(q, {}, Outside(names, refused), prefix, newPrefix).entries
    decreases |names|
  {
    if names != [] {
      var m := names[0];
      var p1 := Step(p, refused, m, prefix, newPrefix);
      if m in refused {
        assert Outside(names, refused) == Outside(names[1..], refused);
        RefusedNamesSkipped(p1, q, refused, names[1..], prefix, newPrefix);
      } else {
        var rest := Outside(names[1..], refused);
        assert Outside(names, refused) == [m] + rest;
        assert ([m] + rest)[0] == m && ([m] + rest)[1..] == rest;
        var q1 := Step(q, {}, m, prefix, newPrefix);
        assert p1.entries == q1.entries;
        RefusedNamesSkipped(p1, q1, refused, names[1..], prefix, newPrefix);
      }
    }
  }

  /** When every selected name is listed once and present, the loop reports
      exactly the refused names, in order: a name it may rename is never
      reported, and a refused one does not hide the names after it. */
  lemma {:induction false} FailedAreTheRefused(p: Progress, refused: set<string>, names: seq<string>,
                                               prefix: string, newPrefix: string)
    requires Distinct(names)
    requires forall n :: n in names ==> n in p.entries
    ensures RenameAll(p, refused, names, prefix, newPrefix).failed == p.failed + Within(names, refused)
    decreases |names|
  {
    if names != [] {
      var m := names[0];
      var rest := names[1..];
      var p1 := Step(p, refused, m, prefix, newPrefix);
      assert Distinct(rest);
      forall n | n in rest ensures n in p1.entries {
        assert n != m;
      }
      FailedAreTheRefused(p1, refused, rest, prefix, newPrefix);
      if m in refused {
        assert p1.failed == p.failed + [m];
        assert Within(names, refused) == [m] + Within(rest, refused);
        assert p.failed + [m] + Within(rest, refused) == p.failed + ([m] + Within(rest, refused));
      } else {
        assert p1.failed == p.failed;
        assert Within(names, refused) == Within(rest, refused);
      }
    }
  }

  /** For a listing of the directory (each name once), the run reports
      exactly the selected names the system refuses, in listing order. */
  lemma ListingRunReportsRefused(entries: map<string, FileId>, refused: set<string>, listing: seq<string>,
                                 prefix: string, newPrefix: string)
    requires Distinct(listing)
    requires forall n :: n in listing <==> n in entries
    ensures var names := Selected(listing, prefix);
            RenameAll(Progress(entries, []), refused, names, prefix, newPrefix).failed == Within(names, refused)
  {
    var names := Selected(listing, prefix);
    SelectedDistinct(listing, prefix);
    FailedAreTheRefused(Progress(entries, []), refused, names, prefix, newPrefix);
    assert [] + Within(names, refused) == Within(names, refused);
  }

  /** Entries whose name starts with neither prefix are never renamed and
      never replaced. */
  lemma {:induction false} OthersUntouched(p: Progress, refused: set<string>, names: seq<string>,
                                           prefix: string, newPrefix: string, n: string)
    requires forall m :: m in names ==> StartsWith(m, prefix)
    requires n in p.entries && !StartsWith(n, prefix) && !StartsWith(n, newPrefix)
    ensures var r := RenameAll(p, refused, names, prefix, newPrefix);
            n in r.entries && r.entries[n] == p.entries[n]
    decreases |names|
  {
    if names != [] {
      var m := names[0];
      NewNameKeepsSuffix(m, prefix, newPrefix);
      var q := Step(p, refused, m, prefix, newPrefix);
      assert n != m && n != NewName(m, prefix, newPrefix);
      OthersUntouched(q, refused, names[1..], prefix, newPrefix, n);
    }
  }

  /** The conditions under which every selected file simply moves: nothing
      is refused, each name is listed once and exists, and no new name is
      already taken. */
  predicate CleanRun(entries: map<string, FileId>, refused: set<string>, names: seq<string>,
                     prefix: string, newPrefix: string)
  {
    Distinct(names) &&
    (forall n :: n in names ==> StartsWith(n, prefix) && n in entries && n !in refused &&
                                NewName(n, prefix, newPrefix) !in entries)
  }

  /** On a clean run each selected file ends up under its new name, every
      other entry stays, and no error is reported. */
  lemma {:induction false} CleanRunMovesEverything(entries: map<string, FileId>, failed: seq<string>,
                                                   refused: set<string>, names: seq<string>,
                                                   prefix: string, newPrefix: string)
    requires CleanRun(entries, refused, names, prefix, newPrefix)
    ensures var r := RenameAll(Progress(entries, failed), refused, names, prefix, newPrefix);
            r.failed == failed &&
            (forall n :: n in names ==>
               n !in r.entries && NewName(n, prefix, newPrefix) in r.entries &&
               r.entries[NewName(n, prefix, newPrefix)] == entries[n]) &&
            (forall k :: k in entries && k !in names ==> k in r.entries && r.entries[k] == entries[k]) &&
            (forall k :: k in r.entries ==>
               (k in entries && k !in names) || exists n :: n in names && k == NewName(n, prefix, newPrefix))
    decreases |names|
  {
    if names != [] {
      var m := names[0];
      var t := NewName(m, prefix, newPrefix);
      var e := entries - {m} + map[t := entries[m]];
      var rest := names[1..];
      assert Step(Progress(entries, failed), refused, m, prefix, newPrefix) == Progress(e, failed);
      forall n | n in rest
        ensures StartsWith(n, prefix) && n in e && n !in refused && NewName(n, prefix, newPrefix) !in e
      {
        assert n != m;
        if NewName(n, prefix, newPrefix) == t {
          NewNameInjective(n, m, prefix, newPrefix);
        }
      }
      assert Distinct(rest);
      assert CleanRun(e, refused, rest, prefix, newPrefix);
      CleanRunMovesEverything(e, failed, refused, rest, prefix, newPrefix);
      var r := RenameAll(Progress(e, failed), refused, rest, prefix, newPrefix);
      assert m !in rest;
      assert t !in rest by { assert t !in entries; }
    }
  }

  /** A directory on disk. */
  class Directory {
    /** Whether the directory exists. */
    const present: bool
    /** The names the system refuses to rename (permissions, busy files). */
    const refused: set<string>
    /** Entry name to the file it names. */
    var entries: map<string, FileId>

    constructor (present: bool, refused: set<string>, entries: map<string, FileId>)
      ensures this.present == present && this.refused == refused && this.entries == entries
    {
      this.present := present;
      this.refused := refused;
      this.entries := entries;
    }

    /** `os.rename(os.path.join(directory, src), os.path.join(directory, dst))`. */
    method Rename(src: string, dst: string) returns (ok: bool)
      modifies this`entries
      ensures ok <==> (src in old(entries) && src !in refused)
      ensures entries == if ok then RenameEntry(old(entries), refused, src, dst).value else old(entries)
    {
      var moved := RenameEntry(entries, refused, src, dst);
      ok := moved.Some?;
      if ok {
        entries := moved.value;
      }
    }
  }

  /** `rename_files(directory, prefix=..., new_prefix=...)`, given the order in
      which `os.listdir` lists the entries. */
  method RenameFilesIn(dir: Directory, listing: seq<string>, prefix: string := "p_", newPrefix: string := "q_")
    returns (report: seq<Report>)
    requires dir.present ==> (forall n :: n in listing <==> n in dir.entries)
    modifies dir`entries
    ensures !dir.present ==> report == [DirectoryNotFound] && dir.entries == old(dir.entries)
    ensures dir.present ==>
              var r := RenameAll(Progress(old(dir.entries), []), dir.refused, Selected(listing, prefix), prefix, newPrefix);
              dir.entries == r.entries && report == ErrorReports(r.failed)
  {
    if !dir.present {
      return [DirectoryNotFound];
    }
    var files := Selected(listing, prefix);
    ghost var start := Progress(dir.entries, []);
    ghost var failed: seq<string> := [];
    report := [];
    var i := 0;
    while i < |files|
      invariant 0 <= i <= |files|
      invariant RenameAll(start, dir.refused, files[..i], prefix, newPrefix) == Progress(dir.entries, failed)
      invariant report == ErrorReports(failed)
    {
      ghost var before := Progress(dir.entries, failed);
      var filename := files[i];
      assert files[..i + 1] == files[..i] + [filename];
      RenameAllSplit(start, dir.refused, files[..i], [filename], prefix, newPrefix);
      var newFilename := NewName(filename, prefix, newPrefix);
      var ok := dir.Rename(filename, newFilename);
      if !ok {
        ErrorReportsAppend(failed, filename);
        report := report + [RenameError(filename)];
        failed := failed + [filename];
        assert Step(before, dir.refused, filename, prefix, newPrefix) == Progress(dir.entries, failed);
      } else {
        assert Step(before, dir.refused, filename, prefix, newPrefix) == Progress(dir.entries, failed);
      }
      i := i + 1;
    }
    assert files[..i] == files;
  }
}
