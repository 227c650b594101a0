/** The VCL table of the Varnish daemon, the administration commands that change
    it, and the controller's reload with its garbage collection. */
module Varnishd {
  import opened Text
  import opened FileSync
  import VclName

  /** What a VCL was compiled from: the entry point and the files it could include. */
  datatype Program = Boot | Compiled(entry: string, files: Files)

  datatype Status = Active | Available | Discarded

  datatype Vcl = Vcl(status: Status, program: Program)

  type Table = map<string, Vcl>

  const BOOT_TABLE: Table := map["boot" := Vcl(Active, Boot)]

  ghost predicate IsActive(t: Table, name: string) {
    name in t && t[name].status == Active
  }

  predicate IsLive(t: Table, name: string) {
    name in t && t[name].status != Discarded
  }

  ghost predicate OneActive(t: Table) {
    exists n :: IsActive(t, n) && forall m :: IsActive(t, m) ==> m == n
  }

  ghost function ActiveName(t: Table): (n: string)
    requires OneActive(t)
    ensures IsActive(t, n) && forall m :: IsActive(t, m) ==> m == n
  {
    var n :| IsActive(t, n) && forall m :: IsActive(t, m) ==> m == n;
    n
  }

  ghost function ActiveProgram(t: Table): Program
    requires OneActive(t)
  {
    t[ActiveName(t)].program
  }

  /** `vcl.load`: the VCL appears, not yet in use. */
  function Loaded(t: Table, name: string, program: Program): Table {
    t[name := Vcl(Available, program)]
  }

  /** `vcl.use`: `name` takes over, the VCL that was active becomes available. */
  function Switched(t: Table, name: string): Table {
    map n | n in t ::
      if n == name then t[n].(status := Active)
      else if t[n].status == Active then t[n].(status := Available)
      else t[n]
  }

  /** A VCL that the controller made and that is not in use. */
  predicate IsGarbage(t: Table, name: string) {
    name in t && t[name].status == Available && HasPrefix(name, VclName.PREFIX)
  }

  /** `after` is `before` with the garbage outside `kept` discarded: a discarded VCL is
      gone, or is listed as discarded while requests still use it. */
  ghost predicate Collected(before: Table, kept: set<string>, after: Table) {
    && after.Keys <= before.Keys
    && forall n <- before ::
         if IsGarbage(before, n) && n !in kept then !IsLive(after, n)
               && (n in after ==> after[n].program == before[n].program)
         else n in after && after[n] == before[n]
  }

  datatype Reload = Reloaded(kept: set<string>) | CompileFailed | LoadError | UseError | ListError

  /** The results that the compiler's verdict on the program leaves possible: it is asked
      after the name was found to be free. */
  predicate Judged(compiles: bool, r: Reload) {
    match r
    case LoadError => true
    case CompileFailed => !compiles
    case Reloaded(_) | UseError | ListError => compiles
  }

  /** What one run of the controller's reload does to the table. */
  ghost predicate ReloadStep(before: Table, name: string, program: Program, r: Reload, after: Table) {
    match r
    case CompileFailed | LoadError => after == before
    case UseError => !IsLive(before, name) && after == Loaded(before, name, program)
    case ListError => !IsLive(before, name) && after == Switched(Loaded(before, name, program), name)
    case Reloaded(kept) =>
      && !IsLive(before, name)
      && Collected(Switched(Loaded(before, name, program), name), kept, after)
  }

  /** A command may fail for no reason the table shows, unless the daemon is taken to be
      reliable. */
  class Daemon {
    const reliable: bool
    /** The VCLs whose discard a reliable daemon refuses. */
    const refused: set<string>
    var table: Table

    constructor (reliable: bool, refused: set<string>)
      ensures table == BOOT_TABLE && this.reliable == reliable && this.refused == refused
    {
      this.reliable, this.refused, table := reliable, refused, BOOT_TABLE;
    }

    /** Fails for a name in use and for a program that does not compile; may fail for any
        other reason. */
    method Load(name: string, program: Program, compiles: bool) returns (ok: bool, compileError: bool)
      modifies this
      ensures ok ==> compiles && !IsLive(old(table), name)
      ensures table == if ok then Loaded(old(table), name, program) else old(table)
      ensures compileError ==> !compiles && !IsLive(old(table), name)
      ensures reliable && !IsLive(old(table), name) ==> (ok <==> compiles) && (compileError <==> !compiles)
    {
      if IsLive(table, name) {
        return false, false;
      }
      ok := *;
      ok := (ok || reliable) && compiles;
      compileError := *;
      compileError := (compileError || reliable) && !compiles;
      if ok {
        table := Loaded(table, name, program);
      }
    }

    method Use(name: string) returns (ok: bool)
      modifies this
      ensures ok ==> IsLive(old(table), name)
      ensures table == if ok then Switched(old(table), name) else old(table)
      ensures reliable && IsLive(old(table), name) ==> ok
    {
      ok := *;
      ok := (ok || reliable) && IsLive(table, name);
      if ok {
        table := Switched(table, name);
      }
    }

    method Discard(name: string) returns (ok: bool)
      modifies this
      ensures ok ==> name in old(table) && old(table)[name].status == Available
      ensures ok ==> table == old(table) - {name} || table == old(table)[name := old(table)[name].(status := Discarded)]
      ensures !ok ==> table == old(table)
      ensures reliable && name in old(table) && old(table)[name].status == Available ==> (ok <==> name !in refused)
    {
      ok := *;
      ok := (if reliable then name !in refused else ok) && name in table && table[name].status == Available;
      if ok {
        var busy: bool := *;
        table := if busy then table[name := table[name].(status := Discarded)] else table - {name};
      }
    }

    method List() returns (ok: bool, names: set<string>)
      ensures ok ==> names == table.Keys
      ensures reliable ==> ok
    {
      ok, names := *, table.Keys;
      ok := ok || reliable;
    }

    /** The first active entry of the list; no active entry is an error. */
    method GetActiveConfigurationName() returns (ok: bool, name: string)
      ensures ok ==> IsActive(table, name)
      ensures OneActive(table) && ok ==> name == ActiveName(table)
      ensures OneActive(table) && reliable ==> ok
    {
      name := "";
      var names;
      ok, names := List();
      if !ok {
        return;
      }
      while names != {}
        invariant names <= table.Keys
        invariant forall n :: IsActive(table, n) ==> n in names
      {
        var n :| n in names;
        if table[n].status == Active {
          assert IsActive(table, n);
          return true, n;
        }
        names := names - {n};
      }
      return false, "";
    }

    /** Load, use, then discard every other VCL the controller made. */
    method ReconcileVarnish(version: string, second: nat, entry: string, files: Files, compiles: bool)
      returns (r: Reload)
      modifies this
      ensures ReloadStep(old(table), VclName.Create(version, second), Compiled(entry, files), r, table)
      ensures reliable ==>
                if IsLive(old(table), VclName.Create(version, second)) then r == LoadError
                else if compiles then r.Reloaded? && r.kept <= refused else r == CompileFailed
      ensures reliable && r.Reloaded? ==>
                forall n :: IsLive(table, n) && HasPrefix(n, "v-") ==>
                  n == VclName.Create(version, second) || n in refused
      ensures Judged(compiles, r)
    {
      var name := VclName.Create(version, second);
      var ok, compileError := Load(name, Compiled(entry, files), compiles);
      if !ok {
        return if compileError then CompileFailed else LoadError;
      }
      ok := Use(name);
      if !ok {
        return UseError;
      }
      ghost var switched := table;
      var names;
      ok, names := List();
      if !ok {
        return ListError;
      }
      var kept := {};
      ghost var seen := {};
      while names != {}
        invariant names + seen == switched.Keys && names !! seen
        invariant kept <= seen
        invariant Collected(switched, kept + names, table)
        invariant reliable ==> kept <= refused
      {
        var n :| n in names;
        if table[n].status == Available && HasPrefix(n, VclName.PREFIX) {
          var discarded := Discard(n);
          if !discarded {
            kept := kept + {n};
          }
        }
        names := names - {n};
        seen := seen + {n};
      }
      assert kept + {} == kept;
      OnlyKept(switched, kept, table, name);
      return Reloaded(kept);
    }
  }

  // ---- Safety of the table over runs of reloads ----

  /** A VCL that is not the controller's is never discarded, and keeps its program. */
  ghost predicate ForeignKept(before: Table, after: Table) {
    forall n :: IsLive(before, n) && !HasPrefix(n, VclName.PREFIX) ==>
      IsLive(after, n) && after[n].program == before[n].program
  }

  lemma SwitchedHasOneActive(t: Table, name: string)
    requires name in t
    ensures OneActive(Switched(t, name)) && ActiveName(Switched(t, name)) == name
  {
    var s := Switched(t, name);
    assert IsActive(s, name);
    assert forall m :: IsActive(s, m) ==> m == name;
  }

  lemma OnlyKept(before: Table, kept: set<string>, after: Table, name: string)
    requires Collected(before, kept, after)
    requires forall n :: IsActive(before, n) ==> n == name
    ensures forall n :: IsLive(after, n) && HasPrefix(n, "v-") ==> n == name || n in kept
  {
    forall n | IsLive(after, n) && HasPrefix(n, "v-") && n !in kept
      ensures n == name
    {
      assert !IsGarbage(before, n) && after[n] == before[n];
      assert IsActive(before, n);
    }
  }

  lemma CollectedKeepsActive(before: Table, kept: set<string>, after: Table)
    requires OneActive(before) && Collected(before, kept, after)
    ensures OneActive(after)
    ensures ActiveName(after) == ActiveName(before)
    ensures ActiveProgram(after) == ActiveProgram(before)
  {
    var n := ActiveName(before);
    assert !IsGarbage(before, n);
    assert IsActive(after, n);
    forall m | IsActive(after, m)
      ensures m == n
    {
      assert m in before;
      assert after[m].status == Active;
      assert !IsGarbage(before, m) || m in kept;
      assert after[m] == before[m];
      assert IsActive(before, m);
    }
  }

  /** One reload, whatever fails in it: one VCL stays active, it is the new one exactly
      when `vcl.use` went through, and foreign VCLs survive. */
  lemma ReloadKeepsOneActive(before: Table, version: string, second: nat, program: Program, r: Reload, after: Table)
    requires OneActive(before)
    requires ReloadStep(before, VclName.Create(version, second), program, r, after)
    ensures OneActive(after) && ForeignKept(before, after)
    ensures r.Reloaded? || r.ListError? ==>
              ActiveName(after) == VclName.Create(version, second) && ActiveProgram(after) == program
    ensures !(r.Reloaded? || r.ListError?) ==>
              ActiveName(after) == ActiveName(before) && ActiveProgram(after) == ActiveProgram(before)
  {
    var name := VclName.Create(version, second);
    VclName.CreatedHasPrefix(version, second);
    var loaded := Loaded(before, name, program);
    match r
    case CompileFailed | LoadError =>
    case UseError =>
      var n := ActiveName(before);
      assert n != name && IsActive(after, n);
      assert forall m :: IsActive(after, m) ==> IsActive(before, m);
    case ListError =>
      SwitchedHasOneActive(loaded, name);
    case Reloaded(kept) =>
      SwitchedHasOneActive(loaded, name);
      CollectedKeepsActive(Switched(loaded, name), kept, after);
      assert forall n :: !HasPrefix(n, VclName.PREFIX) ==> !IsGarbage(Switched(loaded, name), n);
  }

  /** After a completed reload the only VCLs of the controller that are still live are
      the new one and those whose discard failed: leftovers of earlier failures are
      collected, and with no failed discard the new VCL is the only one. */
  lemma FullCollection(before: Table, version: string, second: nat, program: Program, kept: set<string>, after: Table)
    requires ReloadStep(before, VclName.Create(version, second), program, Reloaded(kept), after)
    requires OneActive(before)
    ensures IsLive(after, VclName.Create(version, second))
    ensures forall n :: IsLive(after, n) && HasPrefix(n, VclName.PREFIX) ==>
          n == VclName.Create(version, second) || n in kept
  {
    var name := VclName.Create(version, second);
    var s := Switched(Loaded(before, name, program), name);
    SwitchedHasOneActive(Loaded(before, name, program), name);
    CollectedKeepsActive(s, kept, after);
    assert IsActive(after, name);
    forall n | IsLive(after, n) && HasPrefix(n, VclName.PREFIX) && n !in kept
      ensures n == name
    {
      assert n in s && !IsGarbage(s, n);
      assert after[n] == s[n];
      assert IsActive(s, n);
    }
  }

  datatype Attempt = Attempt(version: string, second: nat, program: Program, result: Reload)

  /** A run of reload attempts from `tables[0]`. */
  ghost predicate ReloadRun(tables: seq<Table>, attempts: seq<Attempt>) {
    && |tables| == |attempts| + 1
    && forall i :: 0 <= i < |attempts| ==>
         ReloadStep(tables[i], VclName.Create(attempts[i].version, attempts[i].second),
                    attempts[i].program, attempts[i].result, tables[i + 1])
  }

  /** Over any run there is always exactly one active VCL, and a foreign VCL that is
      live at the start (such as `boot`) is live at the end with its own program. */
  lemma {:induction false} TableSafety(tables: seq<Table>, attempts: seq<Attempt>)
    requires ReloadRun(tables, attempts)
    requires OneActive(tables[0])
    ensures forall i :: 0 <= i < |tables| ==> OneActive(tables[i]) && ForeignKept(tables[0], tables[i])
  {
    if attempts != [] {
      var n := |attempts| - 1;
      TableSafety(tables[..n + 1], attempts[..n]);
      assert OneActive(tables[..n + 1][n]) && ForeignKept(tables[0], tables[..n + 1][n]);
      var a := attempts[n];
      ReloadKeepsOneActive(tables[n], a.version, a.second, a.program, a.result, tables[n + 1]);
      assert ForeignKept(tables[0], tables[n + 1]);
      assert forall i :: 0 <= i < n + 1 ==> tables[i] == tables[..n + 1][i];
    }
  }
}
