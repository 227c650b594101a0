/** The VCL directory and the incremental apply of a rendered file set to it. */
module FileSync {
  import opened Text

  type Files = map<string, string>

  /** `filepath.Ext(name) == ".vcl"` for a name without a slash. */
  predicate IsVcl(name: string) {
    HasSuffix(name, ".vcl")
  }

  /** The part of the directory that the controller reads back. */
  function Visible(disk: Files): Files {
    map n | n in disk && IsVcl(n) :: disk[n]
  }

  /** The files whose names end in `.vcl`, with their contents. */
  lemma VisibleMeans(disk: Files)
    ensures forall n :: At(Visible(disk), n) == if |n| >= 4 && n[|n| - 4..] == ".vcl" then At(disk, n) else None
  {
    forall n
      ensures At(Visible(disk), n) == if |n| >= 4 && n[|n| - 4..] == ".vcl" then At(disk, n) else None
    {
      VclSuffix(n);
    }
  }

  lemma VclSuffix(n: string)
    ensures IsVcl(n) <==> |n| >= 4 && n[|n| - 4..] == ".vcl"
  {
    assert |".vcl"| == 4;
  }

  predicate AllVcl(target: Files) {
    forall n <- target :: IsVcl(n)
  }

  /** The directory once `target` is written in full: what the controller sees
      is replaced, what it does not see stays. */
  function Synced(disk: Files, target: Files): Files {
    (map n | n in disk && !IsVcl(n) :: disk[n]) + target
  }

  /** Applying `target` has something to write or remove. */
  predicate Touches(disk: Files, target: Files) {
    Visible(disk) != target
  }

  function At(files: Files, name: string): Option<string> {
    if name in files then Some(files[name]) else None
  }

  /** A failed write leaves the old file or any part of the new one: all of it if only
      closing the file failed. */
  ghost predicate TornWrite(before: Files, name: string, contents: string, after: Files) {
    || after == before
    || exists k :: 0 <= k <= |contents| && after == before[name := contents[..k]]
  }

  /** An apply that stopped at a failed write or remove of `failed`: that file is as before
      or as far as it was written, every other file is as before or as wanted. */
  ghost predicate StoppedAt(before: Files, target: Files, after: Files, failed: string) {
    && failed in Visible(before).Keys + target.Keys
    && At(Visible(before), failed) != At(target, failed)
    && (|| At(after, failed) == At(before, failed)
        || (failed in target && failed in after && after[failed] <= target[failed]))
    && forall n :: n != failed ==>
         || At(after, n) == At(before, n)
         || (n in Visible(before).Keys + target.Keys && At(after, n) == At(target, n))
  }

  ghost predicate Interrupted(before: Files, target: Files, after: Files) {
    exists failed :: StoppedAt(before, target, after, failed)
  }

  /** The file system under the VCL directory; any read, write or remove may fail, unless
      it is taken to be reliable. */
  class Directory {
    const reliable: bool
    var files: Files

    constructor (files: Files, reliable: bool)
      ensures this.files == files && this.reliable == reliable
    {
      this.files, this.reliable := files, reliable;
    }

    method WriteFile(name: string, contents: string) returns (ok: bool)
      modifies this
      ensures ok ==> files == old(files)[name := contents]
      ensures !ok ==> TornWrite(old(files), name, contents, files)
      ensures reliable ==> ok
    {
      ok := *;
      ok := ok || reliable;
      var cut: int := *;
      if ok {
        files := files[name := contents];
      } else if 0 <= cut <= |contents| {
        files := files[name := contents[..cut]];
      }
    }

    method Remove(name: string) returns (ok: bool)
      modifies this
      ensures files == if ok then old(files) - {name} else old(files)
      ensures reliable ==> ok
    {
      ok := *;
      ok := ok || reliable;
      if ok {
        files := files - {name};
      }
    }

    method GetCurrentFiles() returns (ok: bool, out: Files)
      ensures ok ==> out == Visible(files)
      ensures ok ==> forall n :: At(out, n) == if |n| >= 4 && n[|n| - 4..] == ".vcl" then At(files, n) else None
      ensures reliable ==> ok
    {
      ok, out := ReadAll();
      VisibleMeans(files);
    }

    method ReadAll() returns (ok: bool, out: Files)
      ensures ok ==> out == Visible(files)
      ensures reliable ==> ok
    {
      out := map[];
      ok := true;
      var entries := files.Keys;
      while entries != {}
        invariant entries <= files.Keys
        invariant out == map n | n in files && n !in entries && IsVcl(n) :: files[n]
      {
        var name :| name in entries;
        if IsVcl(name) {
          var readable: bool := *;
          if !readable && !reliable {
            return false, map[];
          }
          out := out[name := files[name]];
        }
        entries := entries - {name};
      }
      assert out == Visible(files);
    }

    /** Bring one name of the difference in line; `status` is its counter. */
    method ApplyOne(name: string, status: int, currFiles: Files, newFiles: Files) returns (touched: bool, ok: bool)
      requires status == (if name in newFiles then 1 else 0) - (if name in currFiles then 1 else 0)
      requires name in currFiles || name in newFiles
      requires At(currFiles, name) == At(files, name) || name in newFiles
      modifies this
      ensures touched <==> At(currFiles, name) != At(newFiles, name)
      ensures ok ==> files == if !touched then old(files)
                              else if name in newFiles then old(files)[name := newFiles[name]]
                              else old(files) - {name}
      ensures !ok ==> touched
      ensures !ok ==>
                files == old(files) || (name in newFiles && TornWrite(old(files), name, newFiles[name], files))
      ensures reliable ==> ok
    {
      touched, ok := false, true;
      if status == -1 {
        touched := true;
        ok := Remove(name);
      } else if status == 0 && currFiles[name] != newFiles[name] {
        touched := true;
        ok := WriteFile(name, newFiles[name]);
      } else if status == 1 {
        touched := true;
        ok := WriteFile(name, newFiles[name]);
      }
    }

    /** Apply `newFiles` in place, in an arbitrary order of the names. */
    method ReconcileFiles(currFiles: Files, newFiles: Files) returns (touched: bool, ok: bool)
      requires currFiles == Visible(files)
      modifies this
      ensures ok ==> files == Synced(old(files), newFiles)
      ensures ok ==> (touched <==> Touches(old(files), newFiles))
      ensures !ok ==> touched && Interrupted(old(files), newFiles, files)
      ensures reliable ==> ok
    {
      var diffFiles := CountDiff(currFiles, newFiles);
      touched := false;
      var pending := diffFiles.Keys;
      while pending != {}
        invariant pending <= diffFiles.Keys
        invariant Progress(old(files), newFiles, diffFiles.Keys - pending, files)
        invariant touched <==> exists n :: n in diffFiles && n !in pending && At(currFiles, n) != At(newFiles, n)
      {
        var name :| name in pending;
        ghost var before := files;
        var changed: bool;
        changed, ok := ApplyOne(name, diffFiles[name], currFiles, newFiles);
        touched := touched || changed;
        if !ok {
          StopHere(old(files), newFiles, diffFiles.Keys - pending, before, name, files);
          return;
        }
        pending := pending - {name};
        ProgressStep(old(files), newFiles, diffFiles.Keys - pending, name, before, files);
      }
      ok := true;
      ProgressDone(old(files), newFiles, files);
      SameFilesIff(currFiles, newFiles);
    }
  }

  /** The names in `done` are as wanted, all others as before. */
  ghost predicate Progress(before: Files, target: Files, done: set<string>, now: Files) {
    && done <= Visible(before).Keys + target.Keys
    && forall n :: At(now, n) == if n in done then At(target, n) else At(before, n)
  }

  lemma ProgressStep(before: Files, target: Files, done: set<string>, name: string, last: Files, now: Files)
    requires name in done && Progress(before, target, done - {name}, last)
    requires done <= Visible(before).Keys + target.Keys
    requires At(now, name) == At(target, name)
    requires forall n :: n != name ==> At(now, n) == At(last, n)
    ensures Progress(before, target, done, now)
  {
  }

  lemma ProgressDone(before: Files, target: Files, now: Files)
    requires Progress(before, target, Visible(before).Keys + target.Keys, now)
    ensures now == Synced(before, target)
  {
    forall n
      ensures At(now, n) == At(Synced(before, target), n)
    {
    }
    SameFiles(now, Synced(before, target));
  }

  lemma StopHere(before: Files, target: Files, done: set<string>, last: Files, name: string, now: Files)
    requires Progress(before, target, done, last)
    requires name !in done && name in Visible(before).Keys + target.Keys
    requires At(Visible(before), name) != At(target, name)
    requires now == last || (name in target && TornWrite(last, name, target[name], now))
    ensures Interrupted(before, target, now)
  {
    assert StoppedAt(before, target, now, name);
  }

  lemma SameFilesIff(a: Files, b: Files)
    ensures a == b <==> forall n :: n in a || n in b ==> At(a, n) == At(b, n)
  {
    if forall n :: n in a || n in b ==> At(a, n) == At(b, n) {
      SameFiles(a, b);
    }
  }

  lemma SameFiles(a: Files, b: Files)
    requires forall n :: At(a, n) == At(b, n)
    ensures a == b
  {
    assert forall n :: n in a <==> At(a, n).Some?;
    assert forall n :: n in b <==> At(b, n).Some?;
    forall n | n in a
      ensures a[n] == b[n]
    {
      assert At(a, n) == At(b, n);
    }
  }

  /** One counter per name: 1 to create, -1 to remove, 0 to compare. */
  method CountDiff(currFiles: Files, newFiles: Files) returns (diff: map<string, int>)
    ensures diff.Keys == currFiles.Keys + newFiles.Keys
    ensures forall n <- diff ::
              diff[n] == (if n in newFiles then 1 else 0) - (if n in currFiles then 1 else 0)
  {
    diff := map[];
    var todo := newFiles.Keys;
    while todo != {}
      invariant todo <= newFiles.Keys
      invariant diff == map n | n in newFiles && n !in todo :: 1
    {
      var k :| k in todo;
      diff := diff[k := 1];
      todo := todo - {k};
    }
    todo := currFiles.Keys;
    while todo != {}
      invariant todo <= currFiles.Keys
      invariant diff.Keys == newFiles.Keys + (currFiles.Keys - todo)
      invariant forall n <- diff ::
                  diff[n] == (if n in newFiles then 1 else 0) - (if n in currFiles && n !in todo then 1 else 0)
    {
      var k :| k in todo;
      diff := diff[k := (if k in diff then diff[k] else 0) - 1];
      todo := todo - {k};
    }
  }

  /** A second run finds nothing to do, exactly when every target name is one
      that the controller reads back. */
  lemma SecondRunTouchesIff(disk: Files, target: Files)
    ensures !Touches(Synced(disk, target), target) <==> AllVcl(target)
  {
    var again := Visible(Synced(disk, target));
    if AllVcl(target) {
      assert again == target;
    } else {
      var n :| n in target && !IsVcl(n);
      assert n !in again;
    }
  }

  /** After an interrupted apply the retry ends with the directory the first attempt would
      have left. It has something to do unless, all target names being read back, the failed
      write was the last one needed and was complete. */
  lemma RetryFinishes(before: Files, target: Files, after: Files)
    requires Interrupted(before, target, after)
    ensures Synced(after, target) == Synced(before, target)
    ensures Touches(after, target) <==> !AllVcl(target) || after != Synced(before, target)
  {
    var failed :| StoppedAt(before, target, after, failed);
    forall n
      ensures At(Synced(after, target), n) == At(Synced(before, target), n)
    {
      if n !in target && !IsVcl(n) {
        assert At(after, n) == At(before, n);
      }
    }
    SameFiles(Synced(after, target), Synced(before, target));
    SecondRunTouchesIff(after, target);
    if !Touches(after, target) {
      UntouchedIsSynced(after, target);
    }
  }

  lemma UntouchedIsSynced(disk: Files, target: Files)
    requires !Touches(disk, target)
    ensures AllVcl(target) && Synced(disk, target) == disk
  {
  }
}
