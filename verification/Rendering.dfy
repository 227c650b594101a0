/** From the ConfigMap to the set of VCL files: plain files are copied, templates
    are executed against the current backends. */
module Rendering {
  import opened Text
  import opened FileSync

  /** What each template (name, text) renders to under the current backends, if anything. */
  type Executor = (string, string) -> Option<string>

  const HEADER := "// This file is generated. Do not edit manually, as changes will be destroyed\n\n"
  const TMPL := ".tmpl"

  predicate IsTemplate(name: string) {
    HasSuffix(name, TMPL)
  }

  /** Neither the entry point, nor a template, nor a file name stands in the way. */
  predicate Renderable(data: Files, exec: Executor, entry: string) {
    && ((entry in data && !IsTemplate(entry)) || entry + TMPL in data)
    && (forall n <- data :: IsTemplate(n) ==> exec(n, data[n]).Some?)
    && (forall n <- data :: !IsTemplate(n) ==> n + TMPL !in data)
  }

  /** The file `name` of the rendering: copied from the plain entry, or else made from
      the template of that name. */
  function Output(data: Files, exec: Executor, name: string): Option<string> {
    if name in data && !IsTemplate(name) then Some(data[name])
    else if name + TMPL in data && exec(name + TMPL, data[name + TMPL]).Some?
    then Some(HEADER + exec(name + TMPL, data[name + TMPL]).value)
    else None
  }

  /** `r` is the rendering: nothing at all, or each file as `Output` says. */
  ghost predicate IsRendering(data: Files, exec: Executor, entry: string, r: Option<Files>) {
    && (r.Some? <==> Renderable(data, exec, entry))
    && (r.Some? ==> forall n :: At(r.value, n) == Output(data, exec, n))
  }

  lemma RenderingIsUnique(data: Files, exec: Executor, entry: string, r: Option<Files>, s: Option<Files>)
    requires IsRendering(data, exec, entry, r) && IsRendering(data, exec, entry, s)
    ensures r == s
  {
    if r.Some? {
      SameFiles(r.value, s.value);
    }
  }

  lemma TemplateNames(n: string)
    ensures IsTemplate(n + TMPL) && TrimSuffix(n + TMPL, TMPL) == n
    ensures IsTemplate(n) ==> TrimSuffix(n, TMPL) + TMPL == n
  {
    assert (n + TMPL)[|n|..] == TMPL && (n + TMPL)[..|n|] == n;
  }

  /** The rendering itself. */
  ghost function Rendered(data: Files, exec: Executor, entry: string): (r: Option<Files>)
    ensures IsRendering(data, exec, entry, r)
  {
    if Renderable(data, exec, entry) then
      var names := data.Keys + set n | n in data :: TrimSuffix(n, TMPL);
      assert forall n :: Output(data, exec, n).Some? ==> n in names by {
        forall n | n + TMPL in data
          ensures n in names
        {
          TemplateNames(n);
          assert TrimSuffix(n + TMPL, TMPL) in names;
        }
      }
      Some(map n | n in names && Output(data, exec, n).Some? :: Output(data, exec, n).value)
    else None
  }

  method FilesAndTemplates(data: Files) returns (files: Files, templates: Files)
    ensures files == map n | n in data && !IsTemplate(n) :: data[n]
    ensures templates == map n | n in data && IsTemplate(n) :: data[n]
  {
    files, templates := map[], map[];
    var todo := data.Keys;
    while todo != {}
      invariant todo <= data.Keys
      invariant files == map n | n in data && n !in todo && !IsTemplate(n) :: data[n]
      invariant templates == map n | n in data && n !in todo && IsTemplate(n) :: data[n]
    {
      var n :| n in todo;
      if IsTemplate(n) {
        templates := templates[n := data[n]];
      } else {
        files := files[n := data[n]];
      }
      todo := todo - {n};
    }
  }

  /** The output of the template that gives the file `n`, if there is one. */
  function OutputOf(templates: Files, exec: Executor, n: string): Option<string>
    requires n + TMPL in templates ==> exec(n + TMPL, templates[n + TMPL]).Some?
  {
    if n + TMPL in templates then Some(HEADER + exec(n + TMPL, templates[n + TMPL]).value) else None
  }

  method ResolveTemplates(templates: Files, exec: Executor) returns (r: Option<Files>)
    requires forall n <- templates :: IsTemplate(n)
    ensures r.Some? <==> forall n <- templates :: exec(n, templates[n]).Some?
    ensures r.Some? ==> forall n :: At(r.value, n) == OutputOf(templates, exec, n)
  {
    var out: Files := map[];
    var todo := templates.Keys;
    while todo != {}
      invariant todo <= templates.Keys
      invariant forall n <- templates :: n !in todo ==> exec(n, templates[n]).Some?
      invariant forall n :: At(out, n) == if n + TMPL in todo then None else OutputOf(templates, exec, n)
    {
      var t :| t in todo;
      var text := exec(t, templates[t]);
      if text.None? {
        return None;
      }
      TemplateNames(t);
      var fileName := TrimSuffix(t, TMPL);
      out := out[fileName := HEADER + text.value];
      todo := todo - {t};
    }
    return Some(out);
  }

  /** The loop that adds the resolved templates to the plain files. */
  method Merge(files: Files, resolved: Files) returns (r: Option<Files>)
    ensures r.None? <==> exists n <- resolved :: n in files
    ensures r.Some? ==> r.value == files + resolved
  {
    var newFiles := files;
    var todo := resolved.Keys;
    while todo != {}
      invariant todo <= resolved.Keys
      invariant forall n :: n in resolved && n !in todo ==> n !in files
      invariant newFiles == files + map n | n in resolved && n !in todo :: resolved[n]
    {
      var n :| n in todo;
      if n in newFiles {
        return None;
      }
      newFiles := newFiles[n := resolved[n]];
      todo := todo - {n};
    }
    assert newFiles == files + resolved;
    return Some(newFiles);
  }

  /** The entries of `data`, parted by the suffix. */
  ghost predicate Parted(data: Files, files: Files, templates: Files) {
    && files == (map n | n in data && !IsTemplate(n) :: data[n])
    && templates == (map n | n in data && IsTemplate(n) :: data[n])
  }

  ghost predicate Resolved(templates: Files, exec: Executor, r: Files) {
    && (forall t <- templates :: exec(t, templates[t]).Some?)
    && forall n :: At(r, n) == OutputOf(templates, exec, n)
  }

  lemma EntryMissing(data: Files, exec: Executor, entry: string, files: Files, templates: Files)
    requires Parted(data, files, templates)
    requires entry !in files && entry + TMPL !in templates
    ensures !Renderable(data, exec, entry)
  {
    TemplateNames(entry);
  }

  lemma TemplateFails(data: Files, exec: Executor, entry: string, files: Files, templates: Files)
    requires Parted(data, files, templates)
    requires exists t <- templates :: exec(t, templates[t]).None?
    ensures !Renderable(data, exec, entry)
  {
    var t :| t in templates && exec(t, templates[t]).None?;
    assert t in data && IsTemplate(t);
  }

  lemma ClashIff(data: Files, exec: Executor, files: Files, templates: Files, resolved: Files)
    requires Parted(data, files, templates) && Resolved(templates, exec, resolved)
    ensures (exists n <- resolved :: n in files) <==> exists n <- data :: !IsTemplate(n) && n + TMPL in data
  {
    forall n
      ensures n in resolved <==> n + TMPL in data
    {
      TemplateNames(n);
      assert n in resolved <==> At(resolved, n).Some?;
    }
    if n :| n in data && !IsTemplate(n) && n + TMPL in data {
      assert n in resolved && n in files;
    }
  }

  lemma MergedIsRendering(data: Files, exec: Executor, entry: string, files: Files, templates: Files, resolved: Files)
    requires Parted(data, files, templates) && Resolved(templates, exec, resolved)
    requires entry in files || entry + TMPL in templates
    requires forall n <- resolved :: n !in files
    ensures IsRendering(data, exec, entry, Some(files + resolved))
  {
    ClashIff(data, exec, files, templates, resolved);
    forall n
      ensures At(files + resolved, n) == Output(data, exec, n)
    {
      TemplateNames(n);
      assert At(resolved, n) == OutputOf(templates, exec, n);
    }
    forall t | t in data && IsTemplate(t)
      ensures exec(t, data[t]).Some?
    {
      assert t in templates;
    }
  }

  /** When there is a rendering and what it is, entry by entry: plain entries are copied, and
      a template gives the file of its name without `.tmpl`, behind the header. */
  ghost predicate RenderingMeans(data: Files, exec: Executor, entry: string, r: Option<Files>) {
    && (r.None? <==>
        || ((entry !in data || HasSuffix(entry, ".tmpl")) && entry + ".tmpl" !in data)
        || (exists n <- data :: HasSuffix(n, ".tmpl") && exec(n, data[n]).None?)
        || (exists n <- data :: !HasSuffix(n, ".tmpl") && n + ".tmpl" in data))
    && (r.Some? ==>
          && (forall n <- data :: !HasSuffix(n, ".tmpl") ==> At(r.value, n) == Some(data[n]))
          && (forall n <- data :: HasSuffix(n, ".tmpl") ==>
                && exec(n, data[n]).Some?
                && var header := "// This file is generated. Do not edit manually, as changes will be destroyed\n\n";
                   At(r.value, n[..|n| - 5]) == Some(header + exec(n, data[n]).value))
          && (forall f <- r.value :: (f in data && !HasSuffix(f, ".tmpl")) || f + ".tmpl" in data))
  }

  lemma RenderedMeans(data: Files, exec: Executor, entry: string)
    ensures RenderingMeans(data, exec, entry, Rendered(data, exec, entry))
  {
    var r := Rendered(data, exec, entry);
    if r.Some? {
      forall n | n in data
        ensures !HasSuffix(n, ".tmpl") ==> At(r.value, n) == Some(data[n])
        ensures HasSuffix(n, ".tmpl") ==>
                  exec(n, data[n]).Some? && At(r.value, n[..|n| - 5]) == Some(HEADER + exec(n, data[n]).value)
      {
        if HasSuffix(n, ".tmpl") {
          TemplateGivesFile(data, exec, entry, n);
        } else {
          assert At(r.value, n) == Output(data, exec, n);
        }
      }
      forall f | f in r.value
        ensures (f in data && !HasSuffix(f, ".tmpl")) || f + ".tmpl" in data
      {
        assert At(r.value, f) == Output(data, exec, f);
      }
    }
  }

  lemma TemplateGivesFile(data: Files, exec: Executor, entry: string, n: string)
    requires n in data && HasSuffix(n, ".tmpl") && Renderable(data, exec, entry)
    ensures exec(n, data[n]).Some? && Output(data, exec, n[..|n| - 5]) == Some(HEADER + exec(n, data[n]).value)
    ensures At(Rendered(data, exec, entry).value, n[..|n| - 5]) == Some(HEADER + exec(n, data[n]).value)
  {
    TemplateNames(n);
    var f := n[..|n| - 5];
    assert f + TMPL == n;
    assert At(Rendered(data, exec, entry).value, f) == Output(data, exec, f);
  }

  method Render(data: Files, exec: Executor, entry: string) returns (r: Option<Files>)
    ensures r == Rendered(data, exec, entry)
    ensures RenderingMeans(data, exec, entry, r)
  {
    RenderedMeans(data, exec, entry);
    var files, templates := FilesAndTemplates(data);
    if entry !in files && entry + TMPL !in templates {
      EntryMissing(data, exec, entry, files, templates);
      return None;
    }
    var resolved := ResolveTemplates(templates, exec);
    if resolved.None? {
      TemplateFails(data, exec, entry, files, templates);
      return None;
    }
    assert Resolved(templates, exec, resolved.value);
    r := Merge(files, resolved.value);
    ClashIff(data, exec, files, templates, resolved.value);
    if r.Some? {
      MergedIsRendering(data, exec, entry, files, templates, resolved.value);
      RenderingIsUnique(data, exec, entry, r, Rendered(data, exec, entry));
    }
  }
}
